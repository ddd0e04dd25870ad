/** Which packet identifiers the server asks the peer to send again. */
module Gaps {
  import opened Memory

  /** The identifiers from `from` up to but not including `to`. */
  function Range(from: nat, to: nat): (r: seq<nat>)
    ensures |r| == if from <= to then to - from else 0
    ensures forall k | 0 <= k < |r| :: r[k] == from + k
  {
    seq(if from <= to then to - from else 0, k => from + k)
  }

  /** The packets asked for when packet `id` follows packet `last`; the subtraction is done on integers that
      do not wrap around. */
  function Asked(last: nat, id: nat): seq<nat> {
    if id as int - 1 > last then Range(last + 1, id) else []
  }

  /** For the identifiers received in turn, what has been asked for followed by what was received. */
  function Ledger(last: nat, ids: seq<nat>): seq<nat>
    decreases |ids|
  {
    if ids == [] then [] else Asked(last, ids[0]) + [ids[0]] + Ledger(ids[0], ids[1..])
  }

  /** For the identifiers received in turn, all that have been asked for. */
  function AllAsked(last: nat, ids: seq<nat>): seq<nat>
    decreases |ids|
  {
    if ids == [] then [] else Asked(last, ids[0]) + AllAsked(ids[0], ids[1..])
  }

  function Last(last: nat, ids: seq<nat>): nat {
    if ids == [] then last else ids[|ids| - 1]
  }

  predicate Increasing(last: nat, ids: seq<nat>)
    decreases |ids|
  {
    ids == [] || (last < ids[0] && Increasing(ids[0], ids[1..]))
  }

  lemma RangeSplit(from: nat, mid: nat, to: nat)
    requires from <= mid <= to
    ensures Range(from, to) == Range(from, mid) + Range(mid, to)
  {
  }

  lemma {:induction false} IncreasingLast(last: nat, ids: seq<nat>)
    requires Increasing(last, ids)
    ensures Last(last, ids) >= last + |ids|
    decreases |ids|
  {
    if ids != [] {
      IncreasingLast(ids[0], ids[1..]);
    }
  }

  /** Gap accounting: every identifier after `last` up to the newest one has been received or asked for,
      exactly once and in order, if and only if the identifiers received increase. */
  lemma {:induction false} EveryIdOnce(last: nat, ids: seq<nat>)
    ensures Ledger(last, ids) == Range(last + 1, Last(last, ids) + 1) <==> Increasing(last, ids)
    decreases |ids|
  {
    if ids != [] {
      var id, rest, end := ids[0], ids[1..], Last(last, ids) + 1;
      var head, tail := Asked(last, id) + [id], Ledger(id, rest);
      EveryIdOnce(id, rest);
      if Increasing(id, rest) {
        IncreasingLast(id, rest);
      }
      assert Last(id, rest) + 1 == end;
      assert Ledger(last, ids) == head + tail;
      hide Ledger;
      if id <= last {
        assert head[0] == id;
        assert (head + tail)[0] == id;
      } else {
        assert head == Range(last + 1, id + 1);
        if id < end {
          RangeSplit(last + 1, id + 1, end);
          SamePrefix(head, tail, Range(id + 1, end));
        }
      }
    }
  }

  lemma SamePrefix<T>(a: seq<T>, b: seq<T>, c: seq<T>)
    ensures a + b == a + c <==> b == c
  {
    assert (a + b)[|a|..] == b && (a + c)[|a|..] == c;
  }

  /** One more packet: the ledger only grows at its end. */
  lemma {:induction false} LedgerSnoc(last: nat, ids: seq<nat>, id: nat)
    ensures Ledger(last, ids + [id]) == Ledger(last, ids) + Asked(Last(last, ids), id) + [id]
    decreases |ids|
  {
    if ids == [] {
      assert [id][1..] == [];
    } else {
      var first, tail := Asked(last, ids[0]) + [ids[0]], ids[1..] + [id];
      assert (ids + [id])[1..] == tail;
      assert Ledger(last, ids + [id]) == first + Ledger(ids[0], tail);
      assert Ledger(last, ids) == first + Ledger(ids[0], ids[1..]);
      assert Last(ids[0], ids[1..]) == Last(last, ids);
      LedgerSnoc(ids[0], ids[1..], id);
      hide *;
      assert first + (Ledger(ids[0], ids[1..]) + Asked(Last(last, ids), id) + [id])
             == first + Ledger(ids[0], ids[1..]) + Asked(Last(last, ids), id) + [id];
    }
  }

  lemma {:induction false} AllAskedSnoc(last: nat, ids: seq<nat>, id: nat)
    ensures AllAsked(last, ids + [id]) == AllAsked(last, ids) + Asked(Last(last, ids), id)
    decreases |ids|
  {
    if ids == [] {
      assert [id][1..] == [];
    } else {
      var first, tail := Asked(last, ids[0]), ids[1..] + [id];
      assert (ids + [id])[1..] == tail;
      assert Last(ids[0], ids[1..]) == Last(last, ids);
      AllAskedSnoc(ids[0], ids[1..], id);
      assert AllAsked(last, ids + [id]) == first + AllAsked(ids[0], tail);
      assert AllAsked(last, ids) == first + AllAsked(ids[0], ids[1..]);
      hide *;
      assert first + (AllAsked(ids[0], ids[1..]) + Asked(Last(last, ids), id))
             == first + AllAsked(ids[0], ids[1..]) + Asked(Last(last, ids), id);
    }
  }

  /** The ledger is what was asked for and what was received. */
  lemma {:induction false} LedgerIsBoth(last: nat, ids: seq<nat>)
    ensures multiset(Ledger(last, ids)) == multiset(AllAsked(last, ids)) + multiset(ids)
    decreases |ids|
  {
    if ids != [] {
      LedgerIsBoth(ids[0], ids[1..]);
      var asked, id := Asked(last, ids[0]), ids[0];
      assert multiset(ids) == multiset{id} + multiset(ids[1..]) by {
        assert ids == [id] + ids[1..];
      }
      assert Ledger(last, ids) == asked + [id] + Ledger(id, ids[1..]);
      assert AllAsked(last, ids) == asked + AllAsked(id, ids[1..]);
    }
  }

  /** Steps that do not go up cost more than they advance. */
  lemma {:induction false} LedgerLength(last: nat, ids: seq<nat>)
    ensures |Ledger(last, ids)| >= Last(last, ids) - last
    ensures |Ledger(last, ids)| == Last(last, ids) - last <==> Increasing(last, ids)
    decreases |ids|
  {
    if ids != [] {
      LedgerLength(ids[0], ids[1..]);
      assert Last(ids[0], ids[1..]) == Last(last, ids);
    }
  }

  /** The packets `asked` for and those received, `ids`, together are those after `last` up to the newest one,
      each exactly once. */
  ghost predicate EachOnce(last: nat, asked: seq<nat>, ids: seq<nat>) {
    multiset(asked) + multiset(ids) == multiset(Range(last + 1, Last(last, ids) + 1))
  }

  /** What was asked for and what was received together are the identifiers after `last` up to the newest one,
      each exactly once, if and only if the identifiers received increase. */
  lemma AskedOrReceivedOnce(last: nat, ids: seq<nat>)
    ensures EachOnce(last, AllAsked(last, ids), ids) <==> Increasing(last, ids)
  {
    LedgerIsBoth(last, ids);
    LedgerLength(last, ids);
    EveryIdOnce(last, ids);
    var ledger, all := Ledger(last, ids), Range(last + 1, Last(last, ids) + 1);
    if multiset(ledger) == multiset(all) {
      assert |multiset(ledger)| == |ledger| && |multiset(all)| == |all|;
      if |ids| > 0 {
        assert |ledger| > 0;
      }
    }
  }
}
