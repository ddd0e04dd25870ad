/** Where the fields of a packet lie on the wire, byte by byte. */
module WireLayout {
  import opened Memory
  import opened Checksum
  import opened Framing
  import opened Drafts

  /** A frame is "AmPi", type, flags, and in big-endian order connection, identifier, checksum and length,
      then the payload and, behind one of odd length, a pad byte. Nothing else is a frame. */
  lemma FrameLayout(f: seq<Byte>)
    ensures WellFormed(f) <==>
            && 14 <= |f| <= 4096 && f[..4] == [0x41, 0x6d, 0x50, 0x69]
            && var n := 0x100 * (f[12] as int) + f[13] as int;
            && |f| == 14 + n + n % 2 && (n > 0 ==> f[5] % 2 == n % 2) && WordSum(f) % 0xFFFF == 1
    ensures WellFormed(f) ==>
              var n := 0x100 * (f[12] as int) + f[13] as int;
              && 14 + n <= |f|
              && PacketOf(f) == Packet(f[4], f[5], 0x100 * (f[6] as int) + f[7] as int,
                                       0x100 * (f[8] as int) + f[9] as int, f[14..14 + n])
  {
    hide WordSum;
    if |f| >= 14 {
      MagicBytes(f);
    }
  }

  lemma MagicBytes(f: seq<Byte>)
    requires |f| >= 14
    ensures LongAt(f, 0) == PACKET_ID <==> f[..4] == [0x41, 0x6d, 0x50, 0x69]
  {
    assert f[..4] == [f[0], f[1], f[2], f[3]];
  }

  /** The same of a packet that has not been sent yet: its checksum is zero. */
  lemma DraftLayout(f: seq<Byte>)
    ensures IsDraft(f) <==>
            && 14 <= |f| <= 4096 && f[..4] == [0x41, 0x6d, 0x50, 0x69] && f[10] == f[11] == 0
            && var n := 0x100 * (f[12] as int) + f[13] as int; |f| == 14 + n + n % 2 && f[5] == n % 2
    ensures IsDraft(f) ==>
              var n := 0x100 * (f[12] as int) + f[13] as int;
              && 14 + n <= |f|
              && DraftPacket(f) == Packet(f[4], f[5], 0x100 * (f[6] as int) + f[7] as int,
                                          0x100 * (f[8] as int) + f[9] as int, f[14..14 + n])
  {
    if |f| >= 14 {
      MagicBytes(f);
    }
  }

  /** The sum is that of the big-endian words. */
  lemma SumOfWord(s: seq<Byte>, high: Byte, low: Byte)
    requires |s| % 2 == 0
    ensures WordSum([]) == 0 && WordSum(s + [high, low]) == WordSum(s) + 0x100 * (high as int) + low as int
  {
    assert (s + [high, low])[..|s|] == s;
  }

  /** Stamping stores in bytes 10 and 11, and nowhere else, what makes the sum of all words 1 modulo 65535. */
  lemma StampLayout(f: seq<Byte>)
    requires IsDraft(f)
    ensures var r := Stamp(f);
            && |r| == |f|
            && var c := 0x100 * (r[10] as int) + r[11] as int;
            && c == Completion(WordSum(f)) >= 1 && (WordSum(f) + c) % 0xFFFF == 1
            && forall k | 0 <= k < |f| && k != 10 && k != 11 :: r[k] == f[k]
  {
    var c := Completion(WordSum(f));
    assert WordAt(Stamp(f), 10) == c;
    NonZeroSum(f);
    CompletesToOne(WordSum(f));
    hide Completion, WordSum;
  }
}
