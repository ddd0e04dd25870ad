/** Bytes, big-endian words and byte strings, as the 68000 lays them out, and the fixed buffers
    that the packet reader and the packet writer share. */
module Memory {
  /** Capacity of every link buffer; also the largest frame INIT announces to the peer. */
  const BUFFER_SIZE := 4096

  /** The stream position of byte `k` of buffer number `i`, all buffers before it being full. */
  function Pos(i: nat, k: nat): nat {
    4096 * i + k
  }

  type Byte = x: int | 0 <= x < 0x100
  type Word = x: int | 0 <= x < 0x1_0000
  type Long = x: int | 0 <= x < 0x1_0000_0000

  /** The big-endian 16-bit word starting at byte `k`. */
  function WordAt(s: seq<Byte>, k: nat): Word
    requires k + 1 < |s|
  {
    0x100 * (s[k] as int) + s[k + 1] as int
  }

  /** A word as the bytes of a big-endian field. */
  function WordBytes(w: Word): (r: seq<Byte>)
    ensures |r| == 2 && WordAt(r, 0) == 0x100 * (r[0] as int) + r[1] as int == w
  {
    [w / 0x100, w % 0x100]
  }

  /** The big-endian 32-bit word starting at byte `k`. */
  function LongAt(s: seq<Byte>, k: nat): Long
    requires k + 3 < |s|
  {
    0x1_0000 * (WordAt(s, k) as int) + WordAt(s, k + 2) as int
  }

  datatype Option<+T> = None | Some(value: T)

  function Flatten<T>(parts: seq<seq<T>>): seq<T> {
    if parts == [] then [] else parts[0] + Flatten(parts[1..])
  }

  lemma {:induction false} FlattenConcat<T>(a: seq<seq<T>>, b: seq<seq<T>>)
    ensures Flatten(a + b) == Flatten(a) + Flatten(b)
  {
    if a == [] {
      assert a + b == b;
    } else {
      FlattenConcat(a[1..], b);
      var first, rest, last := a[0], Flatten(a[1..]), Flatten(b);
      assert (a + b)[1..] == a[1..] + b && Flatten(a + b) == first + Flatten(a[1..] + b);
      assert Flatten(a) == first + rest;
      hide Flatten;
      assert first + (rest + last) == first + rest + last;
    }
  }

  lemma FlattenSnoc<T>(a: seq<seq<T>>, x: seq<T>)
    ensures Flatten(a + [x]) == Flatten(a) + x
  {
    FlattenConcat(a, [x]);
    assert Flatten([x]) == x + Flatten([x][1..]);
  }

  /** `part` lies in `s` at position `q`. */
  ghost predicate LiesAt<T>(s: seq<T>, q: nat, part: seq<T>) {
    q + |part| <= |s| && s[q..q + |part|] == part
  }

  lemma LiesAtConcat<T>(s: seq<T>, q: nat, a: seq<T>, b: seq<T>)
    ensures LiesAt(s, q, a + b) <==> LiesAt(s, q, a) && LiesAt(s, q + |a|, b)
  {
    var whole := a + b;
    if LiesAt(s, q, whole) {
      assert s[q..q + |a|] == whole[..|a|];
      assert s[q + |a|..q + |whole|] == whole[|a|..];
    }
    if LiesAt(s, q, a) && LiesAt(s, q + |a|, b) {
      assert s[q..q + |whole|] == s[q..q + |a|] + s[q + |a|..q + |whole|];
    }
  }

  lemma DropTwice<T>(s: seq<T>, a: nat, b: nat)
    requires a + b <= |s|
    ensures s[a..][b..] == s[a + b..]
  {
  }

  lemma SliceOfSlice<T>(s: seq<T>, at: nat, size: nat, from: nat, to: nat)
    requires at + size <= |s| && from <= to <= size
    ensures s[at..at + size][from..to] == s[at + from..at + to]
  {
    var x, y, z := s[at..at + from], s[at + from..at + to], s[at + to..at + size];
    assert s[at..at + size] == x + y + z;
    assert (x + y + z)[from..to] == y;
  }

  /** A longer string holds whatever its prefix holds. */
  lemma LiesAtExtended<T>(s: seq<T>, t: seq<T>, q: nat, part: seq<T>)
    requires s <= t && LiesAt(s, q, part)
    ensures LiesAt(t, q, part)
  {
    assert t[q..q + |part|] == s[q..q + |part|];
  }

  /** A run of parts lying at `q` is its first part, followed by the others. */
  lemma FlattenLiesAt<T>(s: seq<T>, q: nat, parts: seq<seq<T>>)
    requires parts != []
    ensures |Flatten(parts)| == |parts[0]| + |Flatten(parts[1..])|
    ensures LiesAt(s, q, Flatten(parts)) <==>
            LiesAt(s, q, parts[0]) && LiesAt(s, q + |parts[0]|, Flatten(parts[1..]))
  {
    LiesAtConcat(s, q, parts[0], Flatten(parts[1..]));
  }

  /** A link buffer: `offset` bytes are in use, the rest is uninitialised memory. */
  class Buffer {
    var offset: nat
    const data: array<Byte>

    constructor ()
      ensures offset == 0 && data.Length == BUFFER_SIZE && fresh(data)
    {
      offset := 0;
      data := new Byte[BUFFER_SIZE];
    }
  }

  /** CopyMem: copies `length` bytes between two different blocks of memory. */
  method CopyMem(src: array<Byte>, from: nat, dest: array<Byte>, to: nat, length: nat)
    requires src != dest
    requires from + length <= src.Length && to + length <= dest.Length
    modifies dest
    ensures dest[..to] == old(dest[..to])
    ensures dest[to..to + length] == src[from..from + length]
    ensures dest[to + length..] == old(dest[to + length..])
  {
    forall k | 0 <= k < length {
      dest[to + k] := src[from + k];
    }
  }

  /** `s` with `bytes` stored at `at`. */
  function Put(s: seq<Byte>, at: nat, bytes: seq<Byte>): (r: seq<Byte>)
    requires at + |bytes| <= |s|
    ensures |r| == |s|
    ensures forall k | 0 <= k < |s| :: r[k] == if at <= k < at + |bytes| then bytes[k - at] else s[k]
  {
    s[..at] + bytes + s[at + |bytes|..]
  }

  /** Stores a byte string. */
  method PutBytes(data: array<Byte>, at: nat, bytes: seq<Byte>)
    requires at + |bytes| <= data.Length
    modifies data
    ensures data[..] == Put(old(data[..]), at, bytes)
  {
    forall k | 0 <= k < |bytes| {
      data[at + k] := bytes[k];
    }
  }
}
