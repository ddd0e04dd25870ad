/** The progress of the packet reader as a value: which parts of the received stream it has passed and
    which frames it has taken out of it. Every step of the reader is a step of this trace. */
module ReaderTrace {
  import opened Memory
  import opened Framing

  /** Offsets are those of the chain's buffers, `head` is the buffer pr_InBuf points to. Frame `k` was
      found at `starts[k]`; everything found so far ends at `passed`. `synced` says that nothing but
      well-formed frames has been seen. */
  datatype Trace = Trace(offsets: seq<nat>, head: nat, frames: seq<seq<Byte>>, starts: seq<nat>,
                         passed: nat, synced: bool)

  const START := Trace([], 0, [], [], 0, true)

  /** Every frame taken is a good frame of the stream; they are disjoint and in stream order. */
  ghost predicate InOrder(s: seq<Byte>, frames: seq<seq<Byte>>, starts: seq<nat>, passed: nat) {
    && |starts| == |frames| && passed <= |s|
    && (forall k | 0 <= k < |frames| :: GoodFrame(frames[k]) && LiesAt(s, starts[k], frames[k]))
    && (forall k | 0 <= k < |frames| :: starts[k] + |frames[k]| <= passed)
    && (forall j, k | 0 <= j < k < |frames| :: starts[j] + |frames[j]| <= starts[k])
  }

  /** So far the reader has taken exactly the reference parser's frames, or it has taken all of them
      and gone on behind the malformed place where the reference parser stops. */
  ghost predicate FollowsParse(t: Trace, s: seq<Byte>) {
    if t.synced then
      AllWellFormed(t.frames) && LiesAt(s, 0, Flatten(t.frames)) && t.passed == |Flatten(t.frames)|
    else
      Parse(s, 0).malformed && Parse(s, 0).frames <= t.frames
  }

  /** Offsets are even, and the reader has never moved back before what it has passed. */
  ghost predicate OffsetsFit(t: Trace, s: seq<Byte>) {
    && 4096 * |t.offsets| - 4096 <= |s| <= 4096 * |t.offsets|
    && (t.offsets == [] ==> t.head == 0 && t.passed == 0)
    && (t.offsets != [] ==>
          && t.head < |t.offsets| && t.offsets[t.head] <= 2 * BUFFER_SIZE
          && t.passed <= Pos(t.head, t.offsets[t.head]) && t.passed <= Pos(t.head + 1, 0)
          && (t.synced ==> t.passed == Pos(t.head, t.offsets[t.head])))
    && (forall k | 0 <= k < |t.offsets| :: t.offsets[k] % 2 == 0)
    && (forall k | t.head < k < |t.offsets| ::
          t.offsets[k] <= BUFFER_SIZE && (t.synced ==> t.offsets[k] == 0))
  }

  ghost predicate Good(t: Trace, s: seq<Byte>) {
    InOrder(s, t.frames, t.starts, t.passed) && FollowsParse(t, s) && OffsetsFit(t, s)
  }

  /** The loop of APB_ProcessBuffer stands at buffer `i`, or behind the last one. It can stand just
      before pr_InBuf, at the end of a full buffer. */
  ghost predicate StandsAt(t: Trace, s: seq<Byte>, i: nat) {
    && t.head < |t.offsets| && t.head <= i + 1 && i <= |t.offsets|
    && (i < |t.offsets| ==> t.passed <= Pos(i, t.offsets[i]))
    && (i + 1 == t.head ==> t.offsets[t.head] <= BUFFER_SIZE)
    && (t.synced ==>
          if i < |t.offsets| then t.passed == Pos(i, t.offsets[i]) && t.offsets[i] <= BUFFER_SIZE
          else t.passed == |s|)
  }

  /** More bytes have arrived, perhaps in a new buffer. */
  function Grow(t: Trace, newBuffer: bool): Trace {
    if newBuffer then t.(offsets := t.offsets + [0]) else t
  }

  lemma GrowIsGood(t: Trace, s: seq<Byte>, u: seq<Byte>, newBuffer: bool)
    requires Good(t, s) && s <= u
    requires 4096 * |Grow(t, newBuffer).offsets| - 4096 <= |u| <= 4096 * |Grow(t, newBuffer).offsets|
    ensures Good(Grow(t, newBuffer), u)
  {
    hide InOrder, FollowsParse;
    OrderGrows(s, u, t.frames, t.starts, t.passed);
    ParseGrows(t, s, u);
    assert FollowsParse(Grow(t, newBuffer), u) == FollowsParse(t, u) by {
      SameFrames(t, Grow(t, newBuffer), u);
    }
  }

  lemma SameFrames(t: Trace, t': Trace, s: seq<Byte>)
    requires t'.frames == t.frames && t'.passed == t.passed && t'.synced == t.synced
    ensures FollowsParse(t', s) == FollowsParse(t, s)
  {
  }

  lemma OrderGrows(s: seq<Byte>, u: seq<Byte>, frames: seq<seq<Byte>>, starts: seq<nat>, passed: nat)
    requires s <= u && InOrder(s, frames, starts, passed)
    ensures InOrder(u, frames, starts, passed)
  {
    forall k | 0 <= k < |frames| ensures LiesAt(u, starts[k], frames[k]) {
      LiesAtExtended(s, u, starts[k], frames[k]);
    }
  }

  lemma ParseGrows(t: Trace, s: seq<Byte>, u: seq<Byte>)
    requires s <= u && FollowsParse(t, s)
    ensures FollowsParse(t, u)
  {
    hide Parse, Flatten, WellFormed;
    if t.synced {
      LiesAtExtended(s, u, 0, Flatten(t.frames));
    } else {
      MalformedIsFinal(s, u);
    }
  }

  /** The loop starts at pr_InBuf. */
  lemma StartsAtHead(t: Trace, s: seq<Byte>)
    requires Good(t, s) && t.offsets != []
    ensures t.synced ==> t.offsets[t.head] <= BUFFER_SIZE
    ensures StandsAt(t, s, t.head)
  {
  }

  /** The frame of `size` bytes at buffer `i` is taken; it ends in buffer `into`, which is `i` or the
      next one, and moves that buffer's offset on by `consumed`. */
  function Take(t: Trace, i: nat, f: seq<Byte>, into: nat, consumed: nat): Trace
    requires i < |t.offsets| && into < |t.offsets|
  {
    var q := Pos(i, t.offsets[i]);
    Trace(t.offsets[into := t.offsets[into] + consumed], into, t.frames + [f], t.starts + [q], q + |f|,
          t.synced && |f| <= BUFFER_SIZE)
  }

  /** Where the loop goes on after taking a frame. */
  function AfterTake(t: Trace, into: nat, consumed: nat): nat
    requires into < |t.offsets|
  {
    if t.offsets[into] + consumed == BUFFER_SIZE then into + 1 else into
  }

  /** A frame of `size` bytes at buffer `i` ends in buffer `into`, at most at its last byte. */
  ghost predicate TakeEnds(t: Trace, i: nat, size: nat, into: nat, consumed: nat)
    requires i < |t.offsets|
  {
    if into == i then consumed == size && t.offsets[i] + consumed <= BUFFER_SIZE
    else into == i + 1 < |t.offsets| && Pos(into, consumed) == Pos(i, t.offsets[i]) + size
  }

  lemma TakeIsGood(t: Trace, s: seq<Byte>, i: nat, f: seq<Byte>, into: nat, consumed: nat)
    requires Good(t, s) && StandsAt(t, s, i) && i < |t.offsets| && t.offsets[i] <= BUFFER_SIZE
    requires GoodFrame(f) && LiesAt(s, Pos(i, t.offsets[i]), f)
    requires Classify(s, Pos(i, t.offsets[i])) == if |f| <= BUFFER_SIZE then Complete(|f|) else Malformed
    requires |f| % 2 == 0 && consumed <= BUFFER_SIZE
    requires TakeEnds(t, i, |f|, into, consumed)
    ensures Good(Take(t, i, f, into, consumed), s)
    ensures StandsAt(Take(t, i, f, into, consumed), s, AfterTake(t, into, consumed))
  {
    var t' := Take(t, i, f, into, consumed);
    OrderedTake(t, s, i, f);
    FollowingTake(t, s, i, f, into, consumed);
    assert FollowsParse(t', s) && InOrder(s, t'.frames, t'.starts, t'.passed);
    hide InOrder, FollowsParse, GoodFrame, LiesAt, Classify;
    OffsetsAfterTake(t, s, i, f, into, consumed);
  }

  lemma OffsetsAfterTake(t: Trace, s: seq<Byte>, i: nat, f: seq<Byte>, into: nat, consumed: nat)
    requires OffsetsFit(t, s) && StandsAt(t, s, i) && i < |t.offsets| && t.offsets[i] <= BUFFER_SIZE
    requires |f| % 2 == 0 && consumed <= BUFFER_SIZE && TakeEnds(t, i, |f|, into, consumed)
    requires Pos(i, t.offsets[i]) + |f| <= |s|
    ensures var t' := Take(t, i, f, into, consumed);
            OffsetsFit(t', s) && StandsAt(t', s, AfterTake(t, into, consumed))
  {
    EvenAfterTake(t, s, i, |f|, into, consumed);
    if into == i {
      assert Pos(into, t.offsets[into] + consumed) == Pos(i, t.offsets[i]) + |f|;
    }
  }

  /** The offset moved by a frame stays even. */
  lemma EvenAfterTake(t: Trace, s: seq<Byte>, i: nat, size: nat, into: nat, consumed: nat)
    requires OffsetsFit(t, s) && i < |t.offsets| && size % 2 == 0 && TakeEnds(t, i, size, into, consumed)
    ensures (t.offsets[into] + consumed) % 2 == 0
  {
  }

  lemma OrderedTake(t: Trace, s: seq<Byte>, i: nat, f: seq<Byte>)
    requires StandsAt(t, s, i) && InOrder(s, t.frames, t.starts, t.passed) && i < |t.offsets|
    requires GoodFrame(f) && LiesAt(s, Pos(i, t.offsets[i]), f)
    ensures var q := Pos(i, t.offsets[i]);
            InOrder(s, t.frames + [f], t.starts + [q], q + |f|)
  {
    assert Pos(i, t.offsets[i]) + |f| <= |s|;
    hide GoodFrame, LiesAt;
  }

  lemma FollowingTake(t: Trace, s: seq<Byte>, i: nat, f: seq<Byte>, into: nat, consumed: nat)
    requires FollowsParse(t, s) && StandsAt(t, s, i) && i < |t.offsets| && into < |t.offsets|
    requires LiesAt(s, Pos(i, t.offsets[i]), f)
    requires Classify(s, Pos(i, t.offsets[i])) == if |f| <= BUFFER_SIZE then Complete(|f|) else Malformed
    ensures FollowsParse(Take(t, i, f, into, consumed), s)
  {
    hide Classify, Parse, Flatten, WellFormed;
    if t.synced {
      if |f| <= BUFFER_SIZE {
        ClassifyExact(s, t.passed, f);
        FlattenSnoc(t.frames, f);
        LiesAtConcat(s, 0, Flatten(t.frames), f);
      } else {
        ParseEndsHere(t, s);
        assert t.frames <= t.frames + [f];
      }
    }
  }

  /** In step with the reference parser, a verdict other than Complete is its last one. */
  lemma ParseEndsHere(t: Trace, s: seq<Byte>)
    requires FollowsParse(t, s) && t.synced && t.passed <= |s| && !Classify(s, t.passed).Complete?
    ensures Parse(s, 0) == Parsed(t.frames, t.passed, Classify(s, t.passed).Malformed?)
  {
    hide Classify, Parse, Flatten, WellFormed;
    ParseRun(s, t.frames);
  }

  /** The number of stream bytes in buffer `k`. */
  function BytesIn(t: Trace, s: seq<Byte>, k: nat): int
    requires k < |t.offsets|
  {
    if k + 1 < |t.offsets| then BUFFER_SIZE else |s| - 4096 * k
  }

  /** Bad data at buffer `k`: two bytes are skipped, or pr_InBuf moves to the buffer behind it. */
  function Skip(t: Trace, s: seq<Byte>, k: nat): Trace
    requires k < |t.offsets|
  {
    if t.offsets[k] < BytesIn(t, s, k) then t.(offsets := t.offsets[k := t.offsets[k] + 2], synced := false)
    else if BytesIn(t, s, k) == BUFFER_SIZE && k + 1 < |t.offsets| then t.(head := k + 1, synced := false)
    else t.(synced := false)
  }

  lemma SkipIsGood(t: Trace, s: seq<Byte>, i: nat, k: nat)
    requires Good(t, s) && StandsAt(t, s, i) && i < |t.offsets| && t.offsets[i] <= BytesIn(t, s, i)
    requires Pos(i, t.offsets[i]) <= |s| && Classify(s, Pos(i, t.offsets[i])).Malformed?
    requires k < |t.offsets| && (k == i || k == i + 1) && (k == i ==> t.offsets[i] < BytesIn(t, s, i))
    ensures Good(Skip(t, s, k), s) && StandsAt(Skip(t, s, k), s, k)
  {
    OffsetsAfterSkip(t, s, i, k);
    hide OffsetsFit, InOrder, Classify, Parse;
    LoseStep(t, s, i);
  }

  lemma OffsetsAfterSkip(t: Trace, s: seq<Byte>, i: nat, k: nat)
    requires OffsetsFit(t, s) && StandsAt(t, s, i) && i < |t.offsets| && t.offsets[i] <= BytesIn(t, s, i)
    requires k < |t.offsets| && (k == i || k == i + 1) && (k == i ==> t.offsets[i] < BytesIn(t, s, i))
    ensures OffsetsFit(Skip(t, s, k), s) && StandsAt(Skip(t, s, k), s, k)
  {
  }

  /** At a malformed place the reader has taken all the frames the reference parser finds. */
  lemma LoseStep(t: Trace, s: seq<Byte>, i: nat)
    requires FollowsParse(t, s) && StandsAt(t, s, i) && i < |t.offsets|
    requires Pos(i, t.offsets[i]) <= |s| && Classify(s, Pos(i, t.offsets[i])).Malformed?
    ensures Parse(s, 0).malformed && Parse(s, 0).frames <= t.frames
  {
    hide Classify, Parse, Flatten, WellFormed;
    if t.synced {
      ParseEndsHere(t, s);
    }
  }

  /** The precondition under which the reader works on a stream: it is free of malformed places, or
      no plausible header at an even position has a pad flag that contradicts its length. */
  ghost predicate Tame(s: seq<Byte>) {
    !Parse(s, 0).malformed || forall q: nat | q % 2 == 0 :: PadAgreesAt(s, q)
  }

  /** A header at `q` that passes the first tests has a pad flag that fits its length. */
  ghost predicate PadAgreesAt(s: seq<Byte>, q: nat) {
    q + HEADER_SIZE <= |s| && HeaderAt(s, q).Plausible() ==> HeaderAt(s, q).PadAgrees()
  }

  lemma TameHere(t: Trace, s: seq<Byte>, i: nat)
    requires Tame(s) && FollowsParse(t, s) && StandsAt(t, s, i) && i < |t.offsets|
    requires Pos(i, t.offsets[i]) <= |s| && t.offsets[i] % 2 == 0
    ensures PadAgreesAt(s, Pos(i, t.offsets[i]))
  {
    var q := Pos(i, t.offsets[i]);
    assert q % 2 == 0;
    if !Parse(s, 0).malformed {
      assert t.synced;
      if Classify(s, q).Malformed? {
        hide Classify, Parse, WellFormed, Flatten;
        ParseEndsHere(t, s);
      }
    }
  }

  /** What a call of APB_ProcessBuffer has to deliver when `limit` frames can be taken in all: the
      reference parser's frames up to that limit, and nothing else on a stream without malformed places. */
  ghost predicate Delivers(frames: seq<seq<Byte>>, s: seq<Byte>, limit: nat) {
    var all := Parse(s, 0).frames;
    var due := all[..if limit < |all| then limit else |all|];
    due <= frames && (!Parse(s, 0).malformed ==> frames == due)
  }

  /** The loop stops because no packet could be allocated: only the allowance limits what was taken. */
  lemma DeliversAtLimit(t: Trace, s: seq<Byte>)
    requires FollowsParse(t, s)
    ensures Delivers(t.frames, s, |t.frames|)
  {
    if t.synced {
      SyncedRun(t, s);
      hide *;
      ParseThrough(s, 0, t.frames);
      DeliversRun(t.frames, s);
    }
  }

  lemma SyncedRun(t: Trace, s: seq<Byte>)
    requires FollowsParse(t, s) && t.synced
    ensures AllWellFormed(t.frames) && LiesAt(s, 0, Flatten(t.frames))
  {
  }

  /** Frames at the start of the parse are due up to their number. */
  lemma DeliversRun(frames: seq<seq<Byte>>, s: seq<Byte>)
    requires LiesAt(s, 0, Flatten(frames)) && Parse(s, 0) == Prepend(frames, Parse(s, |Flatten(frames)|))
    ensures Delivers(frames, s, |frames|)
  {
    var tail := Parse(s, |Flatten(frames)|).frames;
    assert (frames + tail)[..|frames|] == frames;
    hide Parse, Flatten;
  }

  /** The loop stops because no frame is complete. */
  lemma DeliversAll(t: Trace, s: seq<Byte>, limit: nat)
    requires FollowsParse(t, s) && |t.frames| <= limit
    requires t.synced ==> !Classify(s, t.passed).Complete?
    ensures Delivers(t.frames, s, limit)
  {
    if t.synced {
      hide WellFormed, Flatten, Classify;
      ParseEndsHere(t, s);
    }
  }
}
