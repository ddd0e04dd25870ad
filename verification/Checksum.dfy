/** The packet checksum: 16-bit words summed into a 32-bit accumulator whose carries are folded
    back at the end (the deferred-carry sum of section 2 of RFC 1071), then negated. */
module Checksum {
  import opened Memory

  /** The sum of the 16-bit words of `s`, counted from its end, without any wrap-around. */
  function WordSum(s: seq<Byte>): nat {
    if |s| < 2 then 0 else WordSum(s[..|s| - 2]) + WordAt(s, |s| - 2)
  }

  /** The receiver's verdict as arithmetic: see CompleteChecksum. */
  predicate GoodSum(sum: nat) {
    sum % 0xFFFF == 1
  }

  predicate Accepts(s: seq<Byte>) {
    GoodSum(WordSum(s))
  }

  /** What a 32-bit accumulator keeps of a sum. */
  function Wrapped(sum: nat): (r: Long)
    ensures sum < 0x1_0000_0000 ==> r == sum
  {
    sum % 0x1_0000_0000
  }

  lemma {:induction false} WordSumConcat(a: seq<Byte>, b: seq<Byte>)
    requires |b| % 2 == 0
    ensures WordSum(a + b) == WordSum(a) + WordSum(b)
  {
    if b == [] {
      assert a + b == a;
    } else {
      WordSumConcat(a, b[..|b| - 2]);
      assert (a + b)[..|a + b| - 2] == a + b[..|b| - 2];
    }
  }

  /** The sum of a whole frame is the sum of its pieces, wherever buffer ends cut it. */
  lemma {:induction false} WordSumOfPieces(header: seq<Byte>, data1: seq<Byte>, data2: seq<Byte>)
    requires |data1| % 2 == 0 && |data2| % 2 == 0
    ensures WordSum(header + data1 + data2) == WordSum(header) + WordSum(data1) + WordSum(data2)
  {
    WordSumConcat(header + data1, data2);
    WordSumConcat(header, data1);
  }

  /** The accumulator cannot overflow on any block whose length fits a UWORD. */
  lemma {:induction false} WordSumBound(s: seq<Byte>)
    ensures WordSum(s) <= 0xFFFF * (|s| / 2)
  {
    if |s| >= 2 {
      WordSumBound(s[..|s| - 2]);
    }
  }

  lemma WordSumNext(s: seq<Byte>, t: seq<Byte>)
    requires |s| == |t| + 2 && t == s[..|t|]
    ensures WordSum(s) == WordSum(t) + WordAt(s, |t|)
  {
  }

  lemma WrappedAdd(sum: nat, more: nat)
    ensures Wrapped(Wrapped(sum) + more) == Wrapped(sum + more)
  {
    assert sum + more == 0x1_0000_0000 * (sum / 0x1_0000_0000) + (Wrapped(sum) + more);
  }

  /** Adds the words of `length` bytes at `start`. `length` is a UWORD that is decremented by two
      until it is zero, so it has to be even: see CountdownReachesZero. */
  method AddToChecksum(sum: Long, data: array<Byte>, start: nat, length: Word) returns (r: Long)
    requires length % 2 == 0 && start + length <= data.Length
    ensures r == Wrapped(sum + WordSum(data[start..start + length]))
  {
    r := sum;
    var at, left := start, length;
    assert data[start..start] == [];
    while left > 0
      invariant left % 2 == 0 && 0 <= left <= length && at == start + length - left
      invariant r == Wrapped(sum + WordSum(data[start..at]))
    {
      hide Wrapped;
      WordSumNext(data[start..at + 2], data[start..at]);
      var word: Word := 0x100 * (data[at] as int) + data[at + 1] as int;
      WrappedAdd(sum + WordSum(data[start..at]), word);
      r := Wrapped(r + word);
      at, left := at + 2, left - 2;
    }
  }

  /** UWORD countdown by two, `k` times. */
  function Countdown(length: Word, k: nat): Word {
    (length - 2 * k) % 0x1_0000
  }

  /** The summing loop stops exactly on even lengths; an odd one would never reach zero. */
  lemma CountdownReachesZero(length: Word)
    ensures (exists k: nat :: Countdown(length, k) == 0) <==> length % 2 == 0
  {
    if length % 2 == 0 {
      assert Countdown(length, length / 2) == 0;
    } else {
      forall k: nat ensures Countdown(length, k) != 0 {
        assert (length - 2 * k) % 2 == 1;
      }
    }
  }

  /** What end-around-carry folding leaves of `sum`: its residue modulo 65535, with 65535 and not
      zero standing for a positive multiple. */
  function Fold(sum: nat): Word {
    if sum == 0 then 0 else 1 + (sum - 1) % 0xFFFF
  }

  lemma FoldStep(high: nat, low: nat)
    ensures Fold(0x1_0000 * high + low) == Fold(high + low)
  {
    if high + low > 0 {
      assert 0x1_0000 * high + low - 1 == 0xFFFF * high + (high + low - 1);
      ModShift(high, high + low - 1);
    }
  }

  lemma ModShift(q: int, r: int)
    ensures (0xFFFF * q + r) % 0xFFFF == r % 0xFFFF
  {
  }

  /** The value the sender stores and the receiver tests: the two's complement of the fold. */
  function Completion(sum: nat): Word {
    (0x1_0000 - Fold(sum)) % 0x1_0000
  }

  method CompleteChecksum(sum: Long) returns (c: Word)
    ensures c == Completion(sum)
    ensures c == 0xFFFF <==> GoodSum(sum)
    ensures if sum == 0 then c == 0 else c >= 1 && (sum + c) % 0xFFFF == 1
  {
    var s: int := sum;
    while s / 0x1_0000 != 0
      invariant 0 <= s < 0x1_0000_0000
      invariant Fold(s) == Fold(sum)
      decreases s
    {
      FoldStep(s / 0x1_0000, s % 0x1_0000);
      s := s % 0x1_0000 + s / 0x1_0000;
    }
    CompletionOfFolded(sum, s);
    CompleteMeansOne(sum);
    CompletesToOne(sum);
    hide *;
    s := 0xFFFF_FFFF - s;
    c := (s + 1) % 0x1_0000;
  }

  /** What is added to a sum to make it acceptable is the one such word that is not zero. */
  lemma CompletesToOne(sum: nat)
    ensures if sum == 0 then Completion(sum) == 0
            else Completion(sum) >= 1 && (sum + Completion(sum)) % 0xFFFF == 1
  {
    if sum > 0 {
      var q, r := (sum - 1) / 0xFFFF, (sum - 1) % 0xFFFF;
      assert sum == 0xFFFF * q + r + 1 && Completion(sum) == 0xFFFF - r;
      ModShift(q + 1, 1);
      assert sum + Completion(sum) == 0xFFFF * (q + 1) + 1;
    }
  }

  lemma CompletionOfFolded(sum: nat, s: Word)
    requires Fold(s) == Fold(sum)
    ensures Completion(sum) == (0xFFFF_FFFF - s + 1) % 0x1_0000
  {
    assert Fold(s) == s;
  }

  lemma CompleteMeansOne(sum: nat)
    ensures Completion(sum) == 0xFFFF <==> GoodSum(sum)
  {
    if sum > 0 {
      assert sum == 0xFFFF * ((sum - 1) / 0xFFFF) + (1 + (sum - 1) % 0xFFFF);
      ModShift((sum - 1) / 0xFFFF, 1 + (sum - 1) % 0xFFFF);
    }
  }

  /** APB_CalculateChecksum over a block of memory. */
  method CalculateChecksum(data: array<Byte>, start: nat, length: Word) returns (c: Word)
    requires length % 2 == 0 && start + length <= data.Length
    ensures c == Completion(WordSum(data[start..start + length]))
  {
    WordSumBound(data[start..start + length]);
    var sum := AddToChecksum(0, data, start, length);
    c := CompleteChecksum(sum);
  }

  /** `s` with the word at `k` replaced. */
  function WithWord(s: seq<Byte>, k: nat, w: Word): (t: seq<Byte>)
    requires k + 1 < |s|
    ensures |t| == |s| && WordAt(t, k) == w
    ensures forall i | 0 <= i < |s| && i != k && i != k + 1 :: t[i] == s[i]
  {
    s[k := w / 0x100][k + 1 := w % 0x100]
  }

  lemma {:induction false} WordSumWithWord(s: seq<Byte>, k: nat, w: Word)
    requires |s| % 2 == 0 && k % 2 == 0 && k + 1 < |s|
    ensures WordSum(WithWord(s, k, w)) == WordSum(s) - WordAt(s, k) + w
  {
    var t := WithWord(s, k, w);
    var n := |s| - 2;
    if k == n {
      assert t[..n] == s[..n];
    } else {
      WordSumWithWord(s[..n], k, w);
      assert t[..n] == WithWord(s[..n], k, w);
    }
  }

  /** Stamping: a block with a zero checksum word and any non-zero word becomes acceptable once
      the completed sum is stored in the zero word. */
  lemma StampedIsAccepted(s: seq<Byte>, k: nat)
    requires |s| % 2 == 0 && k % 2 == 0 && k + 1 < |s|
    requires WordAt(s, k) == 0 && WordSum(s) > 0
    ensures Accepts(WithWord(s, k, Completion(WordSum(s))))
  {
    hide *;
    WordSumWithWord(s, k, Completion(WordSum(s)));
    CompletionIsGood(WordSum(s));
    AcceptsSum(WithWord(s, k, Completion(WordSum(s))));
  }

  lemma AcceptsSum(s: seq<Byte>)
    ensures Accepts(s) <==> GoodSum(WordSum(s))
  {
  }

  lemma CompletionIsGood(sum: nat)
    requires sum > 0
    ensures GoodSum(sum + Completion(sum))
  {
    var q := (sum - 1) / 0xFFFF;
    assert sum - 1 == 0xFFFF * q + (sum - 1) % 0xFFFF;
    assert sum + Completion(sum) == 0xFFFF * (q + 1) + 1;
    ModShift(q + 1, 1);
  }

  /** Error detection: changing one word of an accepted block is noticed, except for exactly the
      exchange of 0x0000 with 0xFFFF. */
  lemma SingleWordErrors(s: seq<Byte>, k: nat, w: Word)
    requires |s| % 2 == 0 && k % 2 == 0 && k + 1 < |s|
    requires Accepts(s)
    ensures Accepts(WithWord(s, k, w)) <==>
            (w == WordAt(s, k) || {w, WordAt(s, k)} == {0x0000, 0xFFFF})
  {
    WordSumWithWord(s, k, w);
    GoodSumsApart(WordSum(s), w - WordAt(s, k));
    assert 0 in {w, WordAt(s, k)} && 0xFFFF in {w, WordAt(s, k)} <==>
           {w, WordAt(s, k)} == {0x0000, 0xFFFF};
  }

  /** Two sums that differ by less than a word's range are both good only if they are equal or
      exactly 0xFFFF apart. */
  lemma GoodSumsApart(sum: nat, d: int)
    requires GoodSum(sum) && -0xFFFF <= d <= 0xFFFF && sum + d >= 0
    ensures GoodSum(sum + d) <==> d in {-0xFFFF, 0, 0xFFFF}
  {
    ModShift(sum / 0xFFFF, 1 + d);
  }
}
