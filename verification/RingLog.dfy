/** The log of the server: a ring of bytes that makes room by dropping its oldest message. */
module RingLog {
  import opened Memory

  /** The first NUL at or after `k`. */
  function FirstNul(s: seq<Byte>, k: nat): (n: nat)
    requires k <= |s|
    ensures k <= n <= |s| && (n < |s| ==> s[n] == 0) && forall j | k <= j < n :: s[j] != 0
    decreases |s| - k
  {
    if k == |s| || s[k] == 0 then k else FirstNul(s, k + 1)
  }

  /** A full ring loses everything up to and including the first NUL; its first byte is not looked at
      unless there is no other NUL. */
  function Evicted(full: seq<Byte>): seq<Byte>
    requires full != []
  {
    var k := FirstNul(full, 1);
    if k < |full| then full[k + 1..] else full[1..]
  }

  /** The bytes held after one more. */
  function Logged(live: seq<Byte>, c: Byte, size: nat): seq<Byte> {
    if |live| + 1 < size then live + [c] else Evicted(live + [c])
  }

  /** The scan for the end of the oldest message ends. */
  predicate ScanEnds(live: seq<Byte>, c: Byte, size: nat) {
    |live| + 1 < size || 0 in live + [c]
  }

  predicate IsMessage(m: seq<Byte>) {
    m != [] && 0 !in m
  }

  ghost predicate AllMessages(ms: seq<seq<Byte>>) {
    forall m | m in ms :: IsMessage(m)
  }

  /** Messages as they are logged, each with its NUL. */
  function Text(ms: seq<seq<Byte>>): seq<Byte> {
    if ms == [] then [] else ms[0] + [0] + Text(ms[1..])
  }

  /** The longest run of the newest messages that, with the unfinished one, is shorter than the ring. */
  function Newest(ms: seq<seq<Byte>>, partial: seq<Byte>, size: nat): seq<Byte>
    decreases |ms|
  {
    if ms == [] || |Text(ms) + partial| < size then Text(ms) + partial
    else Newest(ms[1..], partial, size)
  }

  /** Nothing is dropped without need: with the next older message there would be no room. */
  lemma {:induction false} NewestIsLongest(ms: seq<seq<Byte>>, partial: seq<Byte>, size: nat) returns (k: nat)
    requires |partial| < size
    ensures k <= |ms| && Newest(ms, partial, size) == Text(ms[k..]) + partial
    ensures |Text(ms[k..]) + partial| < size && (k > 0 ==> |Text(ms[k - 1..]) + partial| >= size)
    decreases |ms|
  {
    k := 0;
    if |Text(ms) + partial| >= size {
      k := NewestIsLongest(ms[1..], partial, size);
      assert ms[1..][k..] == ms[k + 1..];
      if k > 0 {
        assert ms[1..][k - 1..] == ms[k..];
      }
      k := k + 1;
    }
    assert ms[0..] == ms;
  }

  /** A full ring that starts with a whole message loses exactly that. */
  lemma EvictFirst(m: seq<Byte>, rest: seq<Byte>)
    requires IsMessage(m)
    ensures Evicted(m + [0] + rest) == rest
  {
    var full := m + [0] + rest;
    assert full[|m|] == 0 && forall j | 0 <= j < |m| :: full[j] == m[j];
    assert FirstNul(full, 1) == |m|;
    assert full[|m| + 1..] == rest;
  }

  lemma {:induction false} TextSnoc(ms: seq<seq<Byte>>, m: seq<Byte>)
    ensures Text(ms + [m]) == Text(ms) + m + [0]
  {
    if ms == [] {
      assert Text([m]) == m + [0] + Text([m][1..]);
    } else {
      TextSnoc(ms[1..], m);
      assert (ms + [m])[1..] == ms[1..] + [m];
    }
  }

  /** What is held is always the newest whole messages and all of the unfinished one, as many as there is
      room for; here for one more byte of a message that fits the ring with its NUL. */
  lemma {:induction false} LogOneByte(ms: seq<seq<Byte>>, partial: seq<Byte>, c: Byte, size: nat)
    requires AllMessages(ms) && 0 !in partial && c != 0 && |partial| + 2 <= size
    ensures var live := Newest(ms, partial, size);
            && |live| < size && ScanEnds(live, c, size)
            && Logged(live, c, size) == Newest(ms, partial + [c], size)
    decreases |ms|
  {
    var live := Text(ms) + partial;
    if ms == [] {
      assert live == partial && Text([]) + (partial + [c]) == partial + [c];
    } else if |live| < size {
      var rest := Text(ms[1..]) + partial + [c];
      assert live + [c] == ms[0] + [0] + rest;
      assert Text(ms) + (partial + [c]) == live + [c];
      assert (live + [c])[|ms[0]|] == 0;
      EvictFirst(ms[0], rest);
      assert Text(ms[1..]) + (partial + [c]) == rest;
    } else {
      LogOneByte(ms[1..], partial, c, size);
    }
  }

  /** The same for the NUL that finishes a message. */
  lemma {:induction false} LogEnd(ms: seq<seq<Byte>>, m: seq<Byte>, size: nat)
    requires AllMessages(ms) && IsMessage(m) && |m| + 1 <= size
    ensures var live := Newest(ms, m, size);
            && |live| < size && ScanEnds(live, 0, size)
            && Logged(live, 0, size) == Newest(ms + [m], [], size)
    decreases |ms|
  {
    var live, all := Text(ms) + m, ms + [m];
    TextSnoc(ms, m);
    assert Text(all) + [] == live + [0];
    assert (live + [0])[|live|] == 0;
    if ms == [] || |live| < size {
      assert live + [0] == all[0] + [0] + Text(all[1..]);
      EvictFirst(all[0], Text(all[1..]));
      assert Text(all[1..]) + [] == Text(all[1..]);
    } else {
      LogEnd(ms[1..], m, size);
      assert all[1..] == ms[1..] + [m];
    }
  }

  class RingLog {
    const size: nat
    const buf: array<Byte>
    var start: nat
    var end: nat

    /** The messages logged so far. */
    ghost var messages: seq<seq<Byte>>

    ghost predicate Valid()
      reads this
    {
      0 < size < 0x1_0000 && buf.Length == size + 1 && start < size && end < size
    }

    /** The bytes between the two indices, oldest first. */
    ghost function Contents(): (s: seq<Byte>)
      requires Valid()
      reads this, buf
      ensures |s| < size
    {
      Between(buf[..size], start, end)
    }

    static function Between(data: seq<Byte>, start: nat, end: nat): (s: seq<Byte>)
      requires start < |data| && end < |data|
      ensures |s| < |data|
    {
      if start <= end then data[start..end] else data[start..] + data[..end]
    }

    /** All bytes of the ring, starting at `from`. */
    static ghost function Rotated(data: seq<Byte>, from: nat): (s: seq<Byte>)
      requires from <= |data|
      ensures |s| == |data|
      ensures forall j | 0 <= j < |s| :: s[j] == data[if from + j < |data| then from + j else from + j - |data|]
    {
      data[from..] + data[..from]
    }

    /** APB_InitLog */
    constructor (logBufSize: nat)
      requires 0 < logBufSize < 0x1_0000
      ensures Valid() && fresh(buf) && size == logBufSize && Contents() == [] && messages == []
    {
      size := logBufSize;
      buf := new Byte[logBufSize + 1];
      start, end, messages := 0, 0, [];
      new;
      buf[logBufSize] := 0;
    }

    function Next(k: nat): nat {
      if k + 1 == size then 0 else k + 1
    }

    /** APB_LogByte */
    method LogByte(c: Byte)
      requires Valid() && ScanEnds(Contents(), c, size)
      modifies this`start, this`end, buf
      ensures Valid() && Contents() == Logged(old(Contents()), c, size)
    {
      ghost var live := Contents();
      buf[end] := c;
      end := end + 1;
      if end >= size {
        end := 0;
      }
      if end == start {
        ghost var full := Rotated(buf[..size], start);
        assert full == live + [c];
        Evict(full);
      }
    }

    /** The loop of APB_LogByte over a ring whose bytes are `full`. */
    method Evict(ghost full: seq<Byte>)
      requires Valid() && start == end && full == Rotated(buf[..size], start) && 0 in full
      modifies this`start
      ensures Valid() && Contents() == Evicted(full)
    {
      hide Evicted, Rotated, Between, FirstNul;
      ghost var i := Scan(full);
      FirstNulIs(full, i);
      AfterScan(buf[..size], end, if i < size then i + 1 else 1);
      start := Next(start);
    }

    /** The ring without its first `k` bytes. */
    static lemma AfterScan(data: seq<Byte>, end: nat, k: nat)
      requires end < |data| && 1 <= k <= |data|
      ensures var start := if end + k < |data| then end + k else end + k - |data|;
              Between(data, start, end) == Rotated(data, end)[k..]
    {
      var first, second := data[end..], data[..end];
      if end + k < |data| {
        DropInFirst(first, second, k);
        assert first[k..] == data[end + k..];
      } else {
        DropInSecond(first, second, k);
        assert second[end + k - |data|..] == data[end + k - |data|..end];
      }
    }

    static lemma DropInFirst<T>(a: seq<T>, b: seq<T>, k: nat)
      requires k <= |a|
      ensures (a + b)[k..] == a[k..] + b
    {
    }

    static lemma DropInSecond<T>(a: seq<T>, b: seq<T>, k: nat)
      requires |a| <= k <= |a| + |b|
      ensures (a + b)[k..] == b[k - |a|..]
    {
    }

    /** Goes from one byte to the next until it finds a NUL, which is byte number `i` of the ring, or
        byte 0 when there is no other. */
    method Scan(ghost full: seq<Byte>) returns (ghost i: nat)
      requires Valid() && start == end && full == Rotated(buf[..size], start) && 0 in full
      modifies this`start
      ensures Valid() && 1 <= i <= size && start == if end + i < size then end + i else end + i - size
      ensures (forall j | 1 <= j < i :: full[j] != 0) && full[if i < size then i else 0] == 0
    {
      i := 1;
      start := Next(start);
      while buf[start] != 0
        invariant Valid() && 1 <= i <= size && (forall j | 1 <= j < i :: full[j] != 0)
        invariant start == if end + i < size then end + i else end + i - size
        decreases size - i
      {
        start := Next(start);
        i := i + 1;
      }
    }

    static lemma FirstNulIs(full: seq<Byte>, i: nat)
      requires 1 <= i <= |full| && (forall j | 1 <= j < i :: full[j] != 0) && (i < |full| ==> full[i] == 0)
      ensures FirstNul(full, 1) == i
      ensures Evicted(full) == if i < |full| then full[i + 1..] else full[1..]
    {
    }

    /** APB_LogString without padding: the bytes up to the NUL that ends the string. */
    method LogString(s: seq<Byte>, ghost before: seq<Byte>)
      requires Valid() && AllMessages(messages) && 0 !in before + s && |before + s| + 1 <= size
      requires Contents() == Newest(messages, before, size)
      modifies this`start, this`end, buf
      ensures Valid() && Contents() == Newest(messages, before + s, size)
    {
      hide Newest, Logged, ScanEnds, Contents;
      assert before + s[..0] == before;
      for k := 0 to |s|
        invariant Valid() && Contents() == Newest(messages, before + s[..k], size)
      {
        assert s[k] == (before + s)[|before| + k];
        assert before + s[..k + 1] == before + s[..k] + [s[k]];
        assert 0 !in before + s[..k];
        LogOneByte(messages, before + s[..k], s[k], size);
        LogByte(s[k]);
      }
      assert s[..|s|] == s;
    }

    /** A whole message, as APB_Log writes it: its text and a NUL. The ring then holds the newest messages,
        as many as there is room for, and each of them whole. */
    method LogMessage(m: seq<Byte>)
      requires Valid() && AllMessages(messages) && IsMessage(m) && |m| + 1 <= size
      requires Contents() == Newest(messages, [], size)
      modifies this`start, this`end, this`messages, buf
      ensures Valid() && messages == old(messages) + [m] && AllMessages(messages)
      ensures Contents() == Newest(messages, [], size)
    {
      assert [] + m == m;
      hide Newest, Logged, ScanEnds, Contents;
      LogString(m, []);
      LogEnd(messages, m, size);
      LogByte(0);
      messages := messages + [m];
    }

    /** APB_CopyLog: the bytes held, oldest first, cut to `length` unless they wrap around the ring, in
        which case all of them are copied whatever the length. */
    method CopyLog(data: array<Byte>, length: nat) returns (n: nat)
      requires Valid() && data != buf
      requires if start > end || |Contents()| <= length then |Contents()| <= data.Length else length <= data.Length
      modifies data
      ensures n == if |Contents()| > length then length else |Contents()|
      ensures data[..n] == Contents()[..n]
      ensures start > end ==>
                data[..|Contents()|] == Contents() && data[|Contents()|..] == old(data[|Contents()|..])
      ensures start <= end ==> data[n..] == old(data[n..])
    {
      if start > end {
        n := size - (start - end);
        if n > length {
          n := length;
        }
        CopyWrapped(data);
        assert data[..n] == data[..|Contents()|][..n];
      } else {
        n := end - start;
        if n > length {
          n := length;
        }
        CopyMem(buf, start, data, 0, n);
        assert data[..n] == data[0..0 + n] && data[n..] == data[0 + n..];
        assert old(data[n..]) == old(data[0 + n..]);
        SliceOfSlice(buf[..size], start, end - start, 0, n);
        assert buf[..size][start + 0..start + n] == buf[start..start + n];
        assert start + (end - start) == end;
      }
    }

    method CopyWrapped(data: array<Byte>)
      requires Valid() && data != buf && start > end && |Contents()| <= data.Length
      modifies data
      ensures data[..|Contents()|] == Contents() && data[|Contents()|..] == old(data[|Contents()|..])
    {
      var l := size - start;
      ghost var before := data[..];
      CopyMem(buf, start, data, 0, l);
      ghost var first := data[..];
      assert first[..l] == data[..0 + l][0..] && first[l..] == data[0 + l..] && before[l..] == old(data[0 + l..]);
      CopyMem(buf, 0, data, l, end);
      assert data[..][l..l + end] == data[l..l + end] && first[l + end..] == data[..][l + end..];
      TwoPieces(before, first, data[..], buf[..size][start..], buf[..size][..end]);
    }

    static lemma TwoPieces(before: seq<Byte>, first: seq<Byte>, second: seq<Byte>, a: seq<Byte>, b: seq<Byte>)
      requires |a| + |b| <= |before| == |first| == |second|
      requires first[..|a|] == a && first[|a|..] == before[|a|..]
      requires second[..|a|] == first[..|a|] && second[|a|..|a| + |b|] == b
      requires second[|a| + |b|..] == first[|a| + |b|..]
      ensures second[..|a| + |b|] == a + b && second[|a| + |b|..] == before[|a| + |b|..]
    {
      assert second[..|a| + |b|] == second[..|a|] + second[|a|..|a| + |b|];
      assert first[|a| + |b|..] == first[|a|..][|b|..];
      assert before[|a| + |b|..] == before[|a|..][|b|..];
    }
  }
}
