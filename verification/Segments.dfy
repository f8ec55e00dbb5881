/**
  The segments of one quadrant of the sequence space, as values: a sorted list of disjoint byte ranges. These are
  the effects on that list of adding a transmitted range and of collapsing acknowledged neighbours.
 */
module Segments {

  /** A recorded segment: its first and last byte, its retransmit and acknowledgement counts, when it was sent. */
  datatype Seg = Seg(first: nat, last: nat, retrans: nat, acked: nat, time: int)

  /** Sorted, disjoint, and within lo..hi-1. */
  ghost predicate Sorted(vs: seq<Seg>, lo: nat, hi: nat) {
    && (forall i :: 0 <= i < |vs| ==> lo <= vs[i].first <= vs[i].last < hi)
    && (forall i, j :: 0 <= i < j < |vs| ==> vs[i].last < vs[j].first)
  }

  lemma {:induction false} SortedTail(vs: seq<Seg>, lo: nat, hi: nat)
    requires Sorted(vs, lo, hi) && vs != []
    ensures lo <= vs[0].first <= vs[0].last < hi
    ensures Sorted(vs[1..], vs[0].last + 1, hi)
  {
    assert forall i :: 0 <= i < |vs[1..]| ==> vs[1..][i] == vs[i + 1];
  }

  lemma {:induction false} SortedCons(v: Seg, vs: seq<Seg>, lo: nat, hi: nat)
    requires lo <= v.first <= v.last < hi && Sorted(vs, v.last + 1, hi)
    ensures Sorted([v] + vs, lo, hi)
  {
  }

  lemma {:induction false} SortedOne(v: Seg, lo: nat, hi: nat)
    requires lo <= v.first <= v.last < hi
    ensures Sorted([v], lo, hi)
  {
  }

  lemma {:induction false} SortedFrom(vs: seq<Seg>, lo: nat, hi: nat, from: nat)
    requires Sorted(vs, lo, hi) && (vs != [] ==> from <= vs[0].first)
    ensures Sorted(vs, from, hi)
  {
  }

  // ----- byte sets -----

  ghost function Range(first: int, last: int): (r: set<int>)
    ensures forall x :: x in r <==> first <= x <= last
    decreases last - first + 1
  {
    if first > last then {} else Range(first, last - 1) + {last}
  }

  lemma {:induction false} RangeSize(first: int, last: int)
    requires first <= last + 1
    ensures |Range(first, last)| == last - first + 1
    decreases last - first + 1
  {
    if first <= last {
      RangeSize(first, last - 1);
    }
  }

  /** The bytes of all segments, or of the acknowledged ones only. */
  ghost function Bytes(vs: seq<Seg>, all: bool): set<int> {
    if vs == [] then {}
    else (if all || vs[0].acked > 0 then Range(vs[0].first, vs[0].last) else {}) + Bytes(vs[1..], all)
  }

  ghost function Covered(vs: seq<Seg>): set<int> { Bytes(vs, true) }

  ghost function Acked(vs: seq<Seg>): set<int> { Bytes(vs, false) }

  lemma {:induction false} BytesCons(v: Seg, vs: seq<Seg>, all: bool)
    ensures Bytes([v] + vs, all) == (if all || v.acked > 0 then Range(v.first, v.last) else {}) + Bytes(vs, all)
  {
    assert ([v] + vs)[1..] == vs;
  }

  /** A byte is covered when some segment holds it. */
  lemma {:induction false} BytesIn(vs: seq<Seg>, all: bool, x: int)
    ensures x in Bytes(vs, all) <==>
            exists i :: 0 <= i < |vs| && vs[i].first <= x <= vs[i].last && (all || vs[i].acked > 0)
  {
    hide Range;
    if vs != [] {
      BytesIn(vs[1..], all, x);
      if x in Bytes(vs[1..], all) {
        var i :| 0 <= i < |vs[1..]| && vs[1..][i].first <= x <= vs[1..][i].last && (all || vs[1..][i].acked > 0);
        assert vs[i + 1].first <= x <= vs[i + 1].last;
      }
      forall i | 0 <= i < |vs| && vs[i].first <= x <= vs[i].last && (all || vs[i].acked > 0)
        ensures x in Bytes(vs, all)
      {
        if i > 0 { assert vs[1..][i - 1] == vs[i]; }
      }
    }
  }

  lemma {:induction false} BytesAbove(vs: seq<Seg>, lo: nat, hi: nat)
    requires Sorted(vs, lo, hi)
    ensures forall x :: x in Covered(vs) ==> lo <= x < hi
  {
    forall x | x in Covered(vs) ensures lo <= x < hi { BytesIn(vs, true, x); }
  }

  // ----- adding a range -----

  /** A segment touched again: the count is one byte wide. */
  function Resent(v: Seg, split: bool, now: int): Seg {
    v.(retrans := (v.retrans + 1) % 256, time := if split then v.time else now)
  }

  /** The list after the range first..last was sent at time now. The recorded segments stay; the range fills the gaps
      between them; each segment it touches counts as retransmitted, and the first touched gets a new time. */
  function Added(vs: seq<Seg>, first: nat, last: nat, split: bool, now: int): seq<Seg>
    requires first <= last
    decreases |vs|, last - first
  {
    if vs == [] then [Seg(first, last, 0, 0, now)]
    else
      var v := vs[0];
      if first > v.last then [v] + Added(vs[1..], first, last, split, now)
      else if first < v.first then
        if last < v.first then [Seg(first, last, 0, 0, now)] + vs
        else [Seg(first, v.first - 1, 0, 0, now)] + Added(vs, v.first, last, split, now)
      else if last <= v.last then [Resent(v, split, now)] + vs[1..]
      else [Resent(v, split, now)] + Added(vs[1..], v.last + 1, last, true, now)
  }

  /** How many bytes of the range it finds recorded already. */
  function Overlap(vs: seq<Seg>, first: nat, last: nat): nat
    requires first <= last
    decreases |vs|, last - first
  {
    if vs == [] then 0
    else
      var v := vs[0];
      if first > v.last then Overlap(vs[1..], first, last)
      else if first < v.first then
        if last < v.first then 0 else Overlap(vs, v.first, last)
      else if last <= v.last then last - first + 1
      else v.last - first + 1 + Overlap(vs[1..], v.last + 1, last)
  }

  /** Whether a piece of the range was put before a segment that ends beyond the range. */
  predicate OutOfOrder(vs: seq<Seg>, first: nat, last: nat)
    requires first <= last
    decreases |vs|, last - first
  {
    if vs == [] then false
    else
      var v := vs[0];
      if first > v.last then OutOfOrder(vs[1..], first, last)
      else if first < v.first then last < v.last || (last >= v.first && OutOfOrder(vs, v.first, last))
      else last > v.last && OutOfOrder(vs[1..], v.last + 1, last)
  }

  /** The list stays sorted and disjoint. */
  lemma {:induction false} AddedSorted(vs: seq<Seg>, first: nat, last: nat, split: bool, now: int, lo: nat, hi: nat)
    requires Sorted(vs, lo, hi) && lo <= first <= last < hi
    ensures Sorted(Added(vs, first, last, split, now), lo, hi)
    decreases |vs|, last - first
  {
    hide Sorted;
    if vs == [] {
      SortedOne(Seg(first, last, 0, 0, now), lo, hi);
    } else {
      var v := vs[0];
      SortedTail(vs, lo, hi);
      if first > v.last {
        AddedSorted(vs[1..], first, last, split, now, v.last + 1, hi);
        SortedCons(v, Added(vs[1..], first, last, split, now), lo, hi);
      } else if first < v.first {
        if last < v.first {
          SortedFrom(vs, lo, hi, last + 1);
          SortedCons(Seg(first, last, 0, 0, now), vs, lo, hi);
        } else {
          SortedFrom(vs, lo, hi, v.first);
          AddedSorted(vs, v.first, last, split, now, v.first, hi);
          SortedCons(Seg(first, v.first - 1, 0, 0, now), Added(vs, v.first, last, split, now), lo, hi);
        }
      } else if last <= v.last {
        SortedCons(Resent(v, split, now), vs[1..], lo, hi);
      } else {
        AddedSorted(vs[1..], v.last + 1, last, true, now, v.last + 1, hi);
        SortedCons(Resent(v, split, now), Added(vs[1..], v.last + 1, last, true, now), lo, hi);
      }
    }
  }

  /** It covers exactly what was covered and the range; what is acknowledged does not change. */
  lemma {:induction false} AddedBytes(vs: seq<Seg>, first: nat, last: nat, split: bool, now: int, lo: nat, hi: nat)
    requires Sorted(vs, lo, hi) && first <= last
    ensures Covered(Added(vs, first, last, split, now)) == Covered(vs) + Range(first, last)
    ensures Acked(Added(vs, first, last, split, now)) == Acked(vs)
    decreases |vs|, last - first
  {
    hide Range, Bytes, Sorted;
    if vs == [] {
      BytesCons(Seg(first, last, 0, 0, now), [], true);
      BytesCons(Seg(first, last, 0, 0, now), [], false);
      assert [Seg(first, last, 0, 0, now)] + [] == [Seg(first, last, 0, 0, now)];
    } else {
      var v := vs[0];
      SortedTail(vs, lo, hi);
      BytesSplit(vs);
      if first > v.last {
        AddedBytes(vs[1..], first, last, split, now, v.last + 1, hi);
        BytesBoth(v, Added(vs[1..], first, last, split, now));
      } else if first < v.first {
        if last < v.first {
          BytesBoth(Seg(first, last, 0, 0, now), vs);
        } else {
          AddedBytes(vs, v.first, last, split, now, lo, hi);
          BytesBoth(Seg(first, v.first - 1, 0, 0, now), Added(vs, v.first, last, split, now));
          RangeSplit(first, v.first - 1, last);
        }
      } else if last <= v.last {
        BytesBoth(Resent(v, split, now), vs[1..]);
        assert Range(v.first, v.last) + Range(first, last) == Range(v.first, v.last);
      } else {
        AddedBytes(vs[1..], v.last + 1, last, true, now, v.last + 1, hi);
        BytesBoth(Resent(v, split, now), Added(vs[1..], v.last + 1, last, true, now));
        RangeSplit(first, v.last, last);
        assert Range(v.first, v.last) + Range(first, v.last) == Range(v.first, v.last);
      }
    }
  }

  lemma {:induction false} RangeSplit(first: int, mid: int, last: int)
    requires first <= mid + 1 && mid <= last
    ensures Range(first, last) == Range(first, mid) + Range(mid + 1, last)
  {
    hide Range;
  }

  lemma {:induction false} BytesBoth(v: Seg, vs: seq<Seg>)
    ensures Covered([v] + vs) == Range(v.first, v.last) + Covered(vs)
    ensures Acked([v] + vs) == if v.acked > 0 then Range(v.first, v.last) + Acked(vs) else Acked(vs)
  {
    hide Range;
    BytesCons(v, vs, true);
    BytesCons(v, vs, false);
  }

  lemma {:induction false} BytesSplit(vs: seq<Seg>)
    requires vs != []
    ensures Covered(vs) == Range(vs[0].first, vs[0].last) + Covered(vs[1..])
    ensures Acked(vs) == if vs[0].acked > 0 then Range(vs[0].first, vs[0].last) + Acked(vs[1..]) else Acked(vs[1..])
  {
    BytesBoth(vs[0], vs[1..]);
    assert vs == [vs[0]] + vs[1..];
  }

  lemma {:induction false} DisjointSizes(a: set<int>, b: set<int>)
    requires a !! b
    ensures |a + b| == |a| + |b|
  {
  }

  /** The overlap is the number of bytes of the range that were covered. */
  lemma {:induction false} OverlapExact(vs: seq<Seg>, first: nat, last: nat, lo: nat, hi: nat)
    requires Sorted(vs, lo, hi) && first <= last
    ensures Overlap(vs, first, last) == |Covered(vs) * Range(first, last)|
    decreases |vs|, last - first
  {
    hide Range, Bytes, Sorted, Covered;
    if vs == [] {
      NothingCovered(Range(first, last));
    } else {
      var v := vs[0];
      SortedTail(vs, lo, hi);
      BytesAbove(vs[1..], v.last + 1, hi);
      BytesSplit(vs);
      if first > v.last {
        OverlapExact(vs[1..], first, last, v.last + 1, hi);
        assert Covered(vs) * Range(first, last) == Covered(vs[1..]) * Range(first, last);
      } else if last < v.first {
        assert Covered(vs) * Range(first, last) == {};
      } else if first < v.first {
        OverlapExact(vs, v.first, last, lo, hi);
        assert Covered(vs) * Range(first, last) == Covered(vs) * Range(v.first, last);
      } else if last <= v.last {
        RangeSize(first, last);
        assert Covered(vs) * Range(first, last) == Range(first, last);
      } else {
        OverlapExact(vs[1..], v.last + 1, last, v.last + 1, hi);
        OverlapPast(v, Covered(vs[1..]), first, last);
      }
    }
  }

  lemma {:induction false} NothingCovered(r: set<int>)
    ensures |Covered([]) * r| == 0
  {
    assert Covered([]) * r == {};
  }

  lemma {:induction false} OverlapPast(v: Seg, rest: set<int>, first: nat, last: nat)
    requires v.first <= first <= v.last < last && forall x :: x in rest ==> v.last < x
    ensures |(Range(v.first, v.last) + rest) * Range(first, last)|
            == v.last - first + 1 + |rest * Range(v.last + 1, last)|
  {
    hide Range;
    RangeSize(first, v.last);
    var a, b := Range(first, v.last), rest * Range(v.last + 1, last);
    DisjointSizes(a, b);
    assert (Range(v.first, v.last) + rest) * Range(first, last) == a + b;
  }

  /** A segment that ends beyond the range has an unrecorded byte of the range in the gap before it. */
  ghost predicate GapBefore(vs: seq<Seg>, i: nat, first: nat, last: nat)
    requires i < |vs|
  {
    last < vs[i].last && first < vs[i].first && (i > 0 ==> vs[i - 1].last < last && vs[i - 1].last + 1 < vs[i].first)
  }

  ghost predicate SomeGap(vs: seq<Seg>, first: nat, last: nat) {
    exists i :: 0 <= i < |vs| && GapBefore(vs, i, first, last)
  }

  /** Out of order means exactly that. */
  lemma {:induction false} OutOfOrderExact(vs: seq<Seg>, first: nat, last: nat, lo: nat, hi: nat)
    requires Sorted(vs, lo, hi) && first <= last
    ensures OutOfOrder(vs, first, last) <==> SomeGap(vs, first, last)
    decreases |vs|, last - first
  {
    hide SomeGap, Sorted;
    if vs == [] {
      NoGap(vs, first, last);
    } else {
      var v := vs[0];
      SortedTail(vs, lo, hi);
      if first > v.last {
        OutOfOrderExact(vs[1..], first, last, v.last + 1, hi);
        GapTail(vs, first, first, last, lo, hi);
      } else if first >= v.first && last > v.last {
        OutOfOrderExact(vs[1..], v.last + 1, last, v.last + 1, hi);
        GapTail(vs, first, v.last + 1, last, lo, hi);
      } else if first < v.first && last < v.last {
        GapFirst(vs, first, last);
      } else if first < v.first {
        OutOfOrderExact(vs, v.first, last, lo, hi);
        GapLater(vs, first, last, lo, hi);
      } else {
        NoGapInside(vs, first, last, lo, hi);
      }
    }
  }

  lemma {:induction false} NoGap(vs: seq<Seg>, first: nat, last: nat)
    requires forall i :: 0 <= i < |vs| ==> !GapBefore(vs, i, first, last)
    ensures !SomeGap(vs, first, last)
  {
  }

  lemma {:induction false} GapFirst(vs: seq<Seg>, first: nat, last: nat)
    requires vs != [] && first < vs[0].first && last < vs[0].last
    ensures SomeGap(vs, first, last)
  {
    assert GapBefore(vs, 0, first, last);
  }

  lemma {:induction false} GapLater(vs: seq<Seg>, first: nat, last: nat, lo: nat, hi: nat)
    requires Sorted(vs, lo, hi) && vs != [] && first < vs[0].first <= vs[0].last <= last
    ensures SomeGap(vs, first, last) <==> SomeGap(vs, vs[0].first, last)
  {
    forall i | 0 <= i < |vs| ensures GapBefore(vs, i, first, last) <==> GapBefore(vs, i, vs[0].first, last) {
    }
  }

  lemma {:induction false} NoGapInside(vs: seq<Seg>, first: nat, last: nat, lo: nat, hi: nat)
    requires Sorted(vs, lo, hi) && vs != [] && vs[0].first <= first && last <= vs[0].last
    ensures !SomeGap(vs, first, last)
  {
    forall i | 0 <= i < |vs| ensures !GapBefore(vs, i, first, last) {
      assert i > 0 ==> vs[0].last <= vs[i - 1].last;
    }
  }

  lemma {:induction false} GapTail(vs: seq<Seg>, first: nat, from: nat, last: nat, lo: nat, hi: nat)
    requires Sorted(vs, lo, hi) && vs != [] && vs[0].first <= first && vs[0].last < last
    requires from == if first > vs[0].last then first else vs[0].last + 1
    ensures SomeGap(vs, first, last) <==> SomeGap(vs[1..], from, last)
  {
    forall i | 1 <= i < |vs| ensures GapBefore(vs, i, first, last) <==> GapBefore(vs[1..], i - 1, from, last) {
      assert vs[1..][i - 1] == vs[i] && (i > 1 ==> vs[1..][i - 2] == vs[i - 1]);
    }
    SameSome(vs, first, from, last);
  }

  lemma {:induction false} SameSome(vs: seq<Seg>, first: nat, from: nat, last: nat)
    requires vs != [] && !GapBefore(vs, 0, first, last)
    requires forall i :: 1 <= i < |vs| ==> (GapBefore(vs, i, first, last) <==> GapBefore(vs[1..], i - 1, from, last))
    ensures SomeGap(vs, first, last) <==> SomeGap(vs[1..], from, last)
  {
    if i :| 0 <= i < |vs[1..]| && GapBefore(vs[1..], i, from, last) {
      assert GapBefore(vs, i + 1, first, last);
    }
  }

  /** So a range none of which was recorded is out of order exactly when something beyond it was. */
  lemma {:induction false} LateRange(vs: seq<Seg>, first: nat, last: nat, lo: nat, hi: nat)
    requires Sorted(vs, lo, hi) && first <= last && Covered(vs) !! Range(first, last)
    ensures OutOfOrder(vs, first, last) <==> exists x :: x in Covered(vs) && x > last
    decreases |vs|
  {
    hide Range, Bytes, Sorted;
    if vs == [] {
      NoBytes();
    } else {
      var v := vs[0];
      SortedTail(vs, lo, hi);
      BytesSplit(vs);
      if first > v.last {
        LateRange(vs[1..], first, last, v.last + 1, hi);
      } else {
        assert v.last in Covered(vs) && first in Range(first, last);
        assert v.last !in Range(first, last) && first !in Range(v.first, v.last);
      }
    }
  }

  lemma {:induction false} NoBytes()
    ensures Covered([]) == {} && Acked([]) == {}
  {
  }

  // ----- a whole run from an empty quadrant -----

  datatype Sent = Sent(first: nat, last: nat, time: int)

  ghost predicate AllWithin(sent: seq<Sent>, lo: nat, hi: nat) {
    forall i :: 0 <= i < |sent| ==> lo <= sent[i].first <= sent[i].last < hi
  }

  /** The list after these ranges were sent one by one. */
  function AddedAll(vs: seq<Seg>, sent: seq<Sent>): seq<Seg>
    requires forall i :: 0 <= i < |sent| ==> sent[i].first <= sent[i].last
  {
    if sent == [] then vs
    else var s := sent[|sent| - 1]; Added(AddedAll(vs, sent[..|sent| - 1]), s.first, s.last, false, s.time)
  }

  /** The bytes sent that were not reported as retransmitted. */
  function NewBytes(sent: seq<Sent>): int
    requires forall i :: 0 <= i < |sent| ==> sent[i].first <= sent[i].last
  {
    if sent == [] then 0
    else
      var s, before := sent[|sent| - 1], sent[..|sent| - 1];
      NewBytes(before) + (s.last - s.first + 1) - Overlap(AddedAll([], before), s.first, s.last)
  }

  ghost function SentBytes(sent: seq<Sent>): set<int> {
    if sent == [] then {} else SentBytes(sent[..|sent| - 1]) + Range(sent[|sent| - 1].first, sent[|sent| - 1].last)
  }

  lemma {:induction false} Inclusion(a: set<int>, b: set<int>)
    ensures |a + b| == |a| + |b| - |a * b|
  {
    assert a + b == a + (b - a) && b == (b - a) + a * b;
    DisjointSizes(a, b - a);
    DisjointSizes(b - a, a * b);
  }

  /** Over a run, length less reported retransmissions adds up to the number of distinct bytes sent. */
  lemma {:induction false} DistinctBytes(sent: seq<Sent>, lo: nat, hi: nat)
    requires AllWithin(sent, lo, hi)
    ensures Sorted(AddedAll([], sent), lo, hi)
    ensures Covered(AddedAll([], sent)) == SentBytes(sent) && NewBytes(sent) == |SentBytes(sent)|
  {
    if sent != [] {
      var s, before := sent[|sent| - 1], sent[..|sent| - 1];
      var vs := AddedAll([], before);
      DistinctBytes(before, lo, hi);
      AddedSorted(vs, s.first, s.last, false, s.time, lo, hi);
      AddedBytes(vs, s.first, s.last, false, s.time, lo, hi);
      OverlapExact(vs, s.first, s.last, lo, hi);
      RangeSize(s.first, s.last);
      Inclusion(Covered(vs), Range(s.first, s.last));
    }
  }

  // ----- how often a segment was resent -----

  predicate Touches(v: Seg, first: nat, last: nat) { first <= v.last && v.first <= last }

  /** The list has the segment v with this retransmit count, whatever its time. */
  ghost predicate Keeps(ws: seq<Seg>, v: Seg, retrans: nat) {
    exists j :: 0 <= j < |ws| && ws[j] == v.(retrans := retrans, time := ws[j].time)
  }

  // One step of adding: a head, and the rest of the list or what adding the rest of the range makes of it.

  lemma {:induction false} AddedPast(vs: seq<Seg>, first: nat, last: nat, split: bool, now: int)
    requires first <= last && vs != [] && first > vs[0].last
    ensures Added(vs, first, last, split, now) == [vs[0]] + Added(vs[1..], first, last, split, now)
  {
  }

  lemma {:induction false} AddedBefore(vs: seq<Seg>, first: nat, last: nat, split: bool, now: int)
    requires vs != [] && first <= last < vs[0].first <= vs[0].last
    ensures Added(vs, first, last, split, now) == [Seg(first, last, 0, 0, now)] + vs
  {
  }

  lemma {:induction false} AddedInto(vs: seq<Seg>, first: nat, last: nat, split: bool, now: int)
    requires vs != [] && first < vs[0].first <= last && vs[0].first <= vs[0].last
    ensures Added(vs, first, last, split, now)
            == [Seg(first, vs[0].first - 1, 0, 0, now)] + Added(vs, vs[0].first, last, split, now)
  {
  }

  lemma {:induction false} AddedWithin(vs: seq<Seg>, first: nat, last: nat, split: bool, now: int)
    requires vs != [] && vs[0].first <= first <= last <= vs[0].last
    ensures Added(vs, first, last, split, now) == [Resent(vs[0], split, now)] + vs[1..]
  {
  }

  lemma {:induction false} AddedBeyond(vs: seq<Seg>, first: nat, last: nat, split: bool, now: int)
    requires vs != [] && vs[0].first <= first <= vs[0].last < last
    ensures Added(vs, first, last, split, now)
            == [Resent(vs[0], split, now)] + Added(vs[1..], vs[0].last + 1, last, true, now)
  {
  }

  /** What becomes of segment i: touched or not, and whether it is the first that is touched. */
  function Marked(vs: seq<Seg>, i: nat, first: nat, last: nat, split: bool, now: int): Seg
    requires i < |vs|
  {
    var v, touched := vs[i], Touches(vs[i], first, last);
    v.(retrans := if touched then (v.retrans + 1) % 256 else v.retrans,
       time := if touched && !split && (i == 0 || vs[i - 1].last < first) then now else v.time)
  }

  /** A segment that is not touched. */
  lemma {:induction false} MarkedNot(vs: seq<Seg>, i: nat, first: nat, last: nat, split: bool, now: int)
    requires i < |vs| && (last < vs[i].first || vs[i].last < first)
    ensures Marked(vs, i, first, last, split, now) == vs[i]
  {
  }

  lemma {:induction false} MarkedFirst(vs: seq<Seg>, first: nat, last: nat, split: bool, now: int)
    requires vs != [] && vs[0].first <= first <= vs[0].last && first <= last
    ensures Marked(vs, 0, first, last, split, now) == Resent(vs[0], split, now)
  {
  }

  lemma {:induction false} MarkedPast(vs: seq<Seg>, i: nat, first: nat, last: nat, split: bool, now: int,
                                      lo: nat, hi: nat)
    requires Sorted(vs, lo, hi) && 0 < i < |vs| && first > vs[0].last
    ensures Marked(vs, i, first, last, split, now) == Marked(vs[1..], i - 1, first, last, split, now)
  {
    assert vs[1..][i - 1] == vs[i] && (i > 1 ==> vs[1..][i - 2] == vs[i - 1]);
  }

  lemma {:induction false} MarkedInto(vs: seq<Seg>, i: nat, first: nat, last: nat, split: bool, now: int,
                                      lo: nat, hi: nat)
    requires Sorted(vs, lo, hi) && i < |vs| && first < vs[0].first <= last
    ensures Marked(vs, i, first, last, split, now) == Marked(vs, i, vs[0].first, last, split, now)
  {
    assert vs[0].first <= vs[i].last && (i > 0 ==> vs[0].first <= vs[i - 1].last);
  }

  lemma {:induction false} MarkedBeyond(vs: seq<Seg>, i: nat, first: nat, last: nat, split: bool, now: int,
                                        lo: nat, hi: nat)
    requires Sorted(vs, lo, hi) && 0 < i < |vs| && vs[0].first <= first <= vs[0].last < last
    ensures Marked(vs, i, first, last, split, now) == Marked(vs[1..], i - 1, vs[0].last + 1, last, true, now)
  {
    assert vs[1..][i - 1] == vs[i] && vs[0].last < vs[i].last && vs[0].last <= vs[i - 1].last;
  }

  lemma {:induction false} LaterSegment(vs: seq<Seg>, i: nat, lo: nat, hi: nat)
    requires Sorted(vs, lo, hi) && i < |vs|
    ensures vs[0].first <= vs[0].last && vs[0].first <= vs[i].first && (i > 0 ==> vs[0].last < vs[i].first)
  {
  }

  lemma {:induction false} AddedHas(vs: seq<Seg>, i: nat, first: nat, last: nat, split: bool, now: int,
                                    lo: nat, hi: nat)
    requires Sorted(vs, lo, hi) && first <= last && i < |vs|
    ensures Marked(vs, i, first, last, split, now) in Added(vs, first, last, split, now)
    decreases |vs|, last - first
  {
    hide Sorted, Added, Marked, Resent;
    var v, w := vs[0], Marked(vs, i, first, last, split, now);
    SortedTail(vs, lo, hi);
    LaterSegment(vs, i, lo, hi);
    if first > v.last {
      AddedPast(vs, first, last, split, now);
      if i > 0 {
        MarkedPast(vs, i, first, last, split, now, lo, hi);
        AddedHas(vs[1..], i - 1, first, last, split, now, v.last + 1, hi);
      } else {
        MarkedNot(vs, i, first, last, split, now);
      }
    } else if last < v.first {
      AddedBefore(vs, first, last, split, now);
      MarkedNot(vs, i, first, last, split, now);
    } else if first < v.first {
      AddedInto(vs, first, last, split, now);
      MarkedInto(vs, i, first, last, split, now, lo, hi);
      AddedHas(vs, i, v.first, last, split, now, lo, hi);
    } else {
      AddedTouched(vs, i, first, last, split, now, lo, hi);
    }
  }

  /** If the range starts in the first segment. */
  lemma {:induction false} AddedTouched(vs: seq<Seg>, i: nat, first: nat, last: nat, split: bool, now: int,
                                        lo: nat, hi: nat)
    requires Sorted(vs, lo, hi) && i < |vs| && vs[0].first <= first <= vs[0].last && first <= last
    ensures Marked(vs, i, first, last, split, now) in Added(vs, first, last, split, now)
    decreases |vs|, last - first, 0
  {
    hide Sorted, Added, Marked, Resent;
    SortedTail(vs, lo, hi);
    LaterSegment(vs, i, lo, hi);
    if last > vs[0].last {
      AddedBeyond(vs, first, last, split, now);
      if i > 0 {
        MarkedBeyond(vs, i, first, last, split, now, lo, hi);
        AddedHas(vs[1..], i - 1, vs[0].last + 1, last, true, now, vs[0].last + 1, hi);
      } else {
        MarkedFirst(vs, first, last, split, now);
      }
    } else {
      AddedWithin(vs, first, last, split, now);
      if i > 0 {
        MarkedNot(vs, i, first, last, split, now);
        assert vs[i] == vs[1..][i - 1];
      } else {
        MarkedFirst(vs, first, last, split, now);
      }
    }
  }

  /** Adding a range keeps every segment; it counts a retransmission of exactly those it touches, and the first of them
      gets the new time. */
  lemma {:induction false} AddedKeeps(vs: seq<Seg>, i: nat, first: nat, last: nat, split: bool, now: int,
                                      lo: nat, hi: nat)
    requires Sorted(vs, lo, hi) && first <= last && i < |vs|
    ensures var v, touched := vs[i], first <= vs[i].last && vs[i].first <= last;
            v.(retrans := if touched then (v.retrans + 1) % 256 else v.retrans,
               time := if touched && !split && (i == 0 || vs[i - 1].last < first) then now else v.time)
            in Added(vs, first, last, split, now)
  {
    hide Added;
    AddedHas(vs, i, first, last, split, now, lo, hi);
  }

  /** The segment has the place of a recorded one. */
  ghost predicate Recorded(vs: seq<Seg>, w: Seg) {
    exists i :: 0 <= i < |vs| && w.first == vs[i].first && w.last == vs[i].last
  }

  /** The segment is a new piece of the range. */
  ghost predicate NewPiece(vs: seq<Seg>, w: Seg, first: nat, last: nat, now: int) {
    && w == Seg(w.first, w.last, 0, 0, now) && first <= w.first <= w.last <= last
    && Covered(vs) !! Range(w.first, w.last)
  }

  lemma {:induction false} RecordedCons(vs: seq<Seg>, w: Seg)
    requires vs != []
    ensures Recorded(vs[1..], w) || (w.first == vs[0].first && w.last == vs[0].last) ==> Recorded(vs, w)
  {
    assert forall i :: 0 <= i < |vs[1..]| ==> vs[1..][i] == vs[i + 1];
  }

  lemma {:induction false} NewBefore(vs: seq<Seg>, first: nat, last: nat, lo: nat, hi: nat)
    requires Sorted(vs, lo, hi) && vs != [] && last < vs[0].first
    ensures Covered(vs) !! Range(first, last)
  {
    hide Range, Bytes;
    SortedFrom(vs, lo, hi, vs[0].first);
    BytesAbove(vs, vs[0].first, hi);
  }

  lemma {:induction false} NewBehind(vs: seq<Seg>, w: Seg, first: nat, last: nat, now: int, from: nat)
    requires vs != [] && NewPiece(vs[1..], w, from, last, now) && first <= from && vs[0].last < from
    ensures NewPiece(vs, w, first, last, now)
  {
    hide Range, Bytes;
    BytesSplit(vs);
  }

  /** What else is in the list is new: sent once, just now, not acknowledged, and none of it recorded before. */
  lemma {:induction false} AddedNew(vs: seq<Seg>, first: nat, last: nat, split: bool, now: int,
                                    lo: nat, hi: nat, w: Seg)
    requires Sorted(vs, lo, hi) && first <= last && w in Added(vs, first, last, split, now)
    ensures Recorded(vs, w) || NewPiece(vs, w, first, last, now)
    decreases |vs|, last - first
  {
    if vs == [] {
      hide Bytes;
      NoBytes();
    } else {
      var v := vs[0];
      SortedTail(vs, lo, hi);
      RecordedCons(vs, w);
      if first > v.last {
        AddedPast(vs, first, last, split, now);
        hide Recorded, NewPiece, Added, Sorted;
        if w != v {
          AddedNew(vs[1..], first, last, split, now, v.last + 1, hi, w);
          if NewPiece(vs[1..], w, first, last, now) { NewBehind(vs, w, first, last, now, first); }
        }
      } else if last < v.first {
        AddedBefore(vs, first, last, split, now);
        hide Added;
        NewBefore(vs, first, last, lo, hi);
      } else if first < v.first {
        AddedInto(vs, first, last, split, now);
        hide Added;
        NewBefore(vs, first, v.first - 1, lo, hi);
        if w != Seg(first, v.first - 1, 0, 0, now) { AddedNew(vs, v.first, last, split, now, lo, hi, w); }
      } else if last <= v.last {
        AddedWithin(vs, first, last, split, now);
        hide Added, Sorted;
      } else if w != Resent(v, split, now) {
        AddedBeyond(vs, first, last, split, now);
        hide Recorded, NewPiece, Added, Sorted;
        AddedNew(vs[1..], v.last + 1, last, true, now, v.last + 1, hi, w);
        if NewPiece(vs[1..], w, v.last + 1, last, now) { NewBehind(vs, w, first, last, now, v.last + 1); }
      }
    }
  }

  /** How many of these ranges touch the segment. */
  function Hits(v: Seg, sent: seq<Sent>): nat {
    if sent == [] then 0
    else Hits(v, sent[..|sent| - 1]) + if Touches(v, sent[|sent| - 1].first, sent[|sent| - 1].last) then 1 else 0
  }

  lemma {:induction false} KeepsNext(ws: seq<Seg>, v: Seg, n: nat, s: Sent, lo: nat, hi: nat)
    requires Keeps(ws, v, n % 256) && Sorted(ws, lo, hi) && s.first <= s.last
    ensures Keeps(Added(ws, s.first, s.last, false, s.time), v, (n + if Touches(v, s.first, s.last) then 1 else 0) % 256)
  {
    hide Added, Sorted;
    var j :| 0 <= j < |ws| && ws[j] == v.(retrans := n % 256, time := ws[j].time);
    AddedKeeps(ws, j, s.first, s.last, false, s.time, lo, hi);
    assert (n % 256 + 1) % 256 == (n + 1) % 256;
  }

  /** Over every run, a segment stays, and its one-byte count is the number of ranges that touched it, modulo 256. */
  lemma {:induction false} ResentCount(vs: seq<Seg>, i: nat, sent: seq<Sent>, lo: nat, hi: nat)
    requires Sorted(vs, lo, hi) && AllWithin(sent, lo, hi) && i < |vs| && vs[i].retrans < 256
    ensures Sorted(AddedAll(vs, sent), lo, hi)
    ensures Keeps(AddedAll(vs, sent), vs[i], (vs[i].retrans + Hits(vs[i], sent)) % 256)
  {
    hide Sorted, Added;
    if sent == [] {
      assert vs[i] == vs[i].(retrans := vs[i].retrans % 256, time := vs[i].time);
    } else {
      hide Keeps;
      var s, before := sent[|sent| - 1], sent[..|sent| - 1];
      ResentCount(vs, i, before, lo, hi);
      AddedSorted(AddedAll(vs, before), s.first, s.last, false, s.time, lo, hi);
      KeepsNext(AddedAll(vs, before), vs[i], vs[i].retrans + Hits(vs[i], before), s, lo, hi);
    }
  }

  // ----- collapsing -----

  predicate Joins(v: Seg, w: Seg) {
    v.acked > 0 && w.acked > 0 && v.last + 1 == w.first
  }

  function Joined(v: Seg, w: Seg): Seg {
    Seg(v.first, w.last, v.retrans, w.acked, if w.time > v.time then w.time else v.time)
  }

  /** Acknowledged neighbours that fit together become one, up to the first segment not acknowledged. */
  function Collapsed(vs: seq<Seg>): seq<Seg>
    decreases |vs|
  {
    if |vs| < 2 || vs[0].acked == 0 then vs
    else if Joins(vs[0], vs[1]) then Collapsed([Joined(vs[0], vs[1])] + vs[2..])
    else [vs[0]] + Collapsed(vs[1..])
  }

  lemma {:induction false} JoinedBytes(vs: seq<Seg>, all: bool, lo: nat, hi: nat)
    requires Sorted(vs, lo, hi) && |vs| >= 2 && Joins(vs[0], vs[1])
    ensures Sorted([Joined(vs[0], vs[1])] + vs[2..], lo, hi)
    ensures Bytes([Joined(vs[0], vs[1])] + vs[2..], all) == Bytes(vs, all)
  {
    hide Range, Bytes, Sorted;
    var v, w, rest := vs[0], vs[1], vs[2..];
    assert vs == [v] + ([w] + rest);
    BytesCons(v, [w] + rest, all);
    BytesCons(w, rest, all);
    BytesCons(Joined(v, w), rest, all);
    SortedTail(vs, lo, hi);
    SortedTail(vs[1..], v.last + 1, hi);
    assert vs[1..][1..] == rest;
    RangeSplit(v.first, v.last, w.last);
    SortedCons(Joined(v, w), rest, lo, hi);
  }

  /** Collapsing keeps the covered and the acknowledged bytes, and the order. */
  lemma {:induction false} CollapsedBytes(vs: seq<Seg>, all: bool, lo: nat, hi: nat)
    requires Sorted(vs, lo, hi)
    ensures Sorted(Collapsed(vs), lo, hi) && Bytes(Collapsed(vs), all) == Bytes(vs, all)
    decreases |vs|
  {
    hide Range, Bytes, Sorted;
    if |vs| < 2 || vs[0].acked == 0 {
    } else if Joins(vs[0], vs[1]) {
      JoinedBytes(vs, all, lo, hi);
      CollapsedBytes([Joined(vs[0], vs[1])] + vs[2..], all, lo, hi);
    } else {
      SortedTail(vs, lo, hi);
      CollapsedBytes(vs[1..], all, vs[0].last + 1, hi);
      BytesCons(vs[0], vs[1..], all);
      assert vs == [vs[0]] + vs[1..];
      BytesCons(vs[0], Collapsed(vs[1..]), all);
      SortedCons(vs[0], Collapsed(vs[1..]), lo, hi);
    }
  }

  /** What collapsing leaves: up to the first segment not acknowledged, no two neighbours fit together. */
  ghost predicate JoinsNext(vs: seq<Seg>, i: nat)
    requires i < |vs|
  {
    i + 1 < |vs| && Joins(vs[i], vs[i + 1]) && forall k :: 0 <= k < i ==> vs[k].acked > 0
  }

  /** Afterwards none of those neighbours fit together. */
  lemma {:induction false} CollapsedAll(vs: seq<Seg>)
    ensures |vs| > 0 ==> |Collapsed(vs)| > 0 && Collapsed(vs)[0].first == vs[0].first
    ensures |vs| > 0 ==> (Collapsed(vs)[0].acked > 0 <==> vs[0].acked > 0)
    ensures forall i :: 0 <= i < |Collapsed(vs)| ==> !JoinsNext(Collapsed(vs), i)
    decreases |vs|
  {
    if |vs| < 2 || vs[0].acked == 0 {
    } else if Joins(vs[0], vs[1]) {
      CollapsedAll([Joined(vs[0], vs[1])] + vs[2..]);
    } else {
      CollapsedAll(vs[1..]);
      var ws := Collapsed(vs[1..]);
      var r := [vs[0]] + ws;
      forall i | 0 <= i < |r| ensures !JoinsNext(r, i) {
        if i > 0 {
          assert !JoinsNext(ws, i - 1);
          assert forall k :: 0 <= k < |ws| ==> ws[k] == r[k + 1];
        }
      }
    }
  }

  /** The time is the newest of these segments. */
  ghost predicate NewestOf(time: int, vs: seq<Seg>, i: nat, j: nat)
    requires j < |vs|
  {
    && (forall k :: i <= k <= j ==> vs[k].time <= time)
    && (exists k :: i <= k <= j && vs[k].time == time)
  }

  /** w is the stretch of segments i to j in one: the count of retransmissions of its first, the acknowledgements of its
      last, the newest time; if they are several, they are acknowledged and fit together. */
  ghost predicate Stretch(vs: seq<Seg>, i: nat, j: nat, w: Seg) {
    && i <= j < |vs| && w.first == vs[i].first && w.last == vs[j].last
    && w.retrans == vs[i].retrans && w.acked == vs[j].acked && NewestOf(w.time, vs, i, j)
    && (forall k :: i <= k < j ==> FitsNext(vs, k))
  }

  ghost predicate FitsNext(vs: seq<Seg>, k: nat)
    requires k + 1 < |vs|
  {
    vs[k].acked > 0 && vs[k + 1].acked > 0 && vs[k].last + 1 == vs[k + 1].first
  }

  ghost predicate FromStretch(vs: seq<Seg>, w: Seg) { exists i, j :: Stretch(vs, i, j, w) }

  lemma {:induction false} StretchOne(vs: seq<Seg>, i: nat)
    requires i < |vs|
    ensures Stretch(vs, i, i, vs[i])
  {
  }

  lemma {:induction false} StretchMore(vs: seq<Seg>, i: nat, j: nat, w: Seg)
    requires Stretch(vs, i, j, w) && j + 1 < |vs| && Joins(w, vs[j + 1])
    ensures Stretch(vs, i, j + 1, Joined(w, vs[j + 1]))
  {
    var k :| i <= k <= j && vs[k].time == w.time;
  }

  /** Every segment that collapsing leaves is such a stretch. */
  lemma {:induction false} CollapsedFrom(vs: seq<Seg>, i: nat, j: nat, m: Seg, w: Seg)
    requires Stretch(vs, i, j, m) && w in Collapsed([m] + vs[j + 1..])
    ensures FromStretch(vs, w)
    decreases |vs| - j
  {
    hide Stretch, NewestOf;
    StretchRange(vs, i, j, m);
    var rest := vs[j + 1..];
    var all := [m] + rest;
    assert forall k :: 0 <= k < |rest| ==> rest[k] == vs[j + 1 + k];
    if |all| < 2 || m.acked == 0 {
      if w != m {
        var k :| 0 <= k < |rest| && rest[k] == w;
        StretchOne(vs, j + 1 + k);
      }
    } else if Joins(m, vs[j + 1]) {
      StretchMore(vs, i, j, m);
      assert all[2..] == vs[j + 2..];
      CollapsedFrom(vs, i, j + 1, Joined(m, vs[j + 1]), w);
    } else if w != m {
      assert all[1..] == rest == [vs[j + 1]] + vs[j + 2..];
      StretchOne(vs, j + 1);
      CollapsedFrom(vs, j + 1, j + 1, vs[j + 1], w);
    }
  }

  lemma {:induction false} StretchRange(vs: seq<Seg>, i: nat, j: nat, w: Seg)
    requires Stretch(vs, i, j, w)
    ensures i <= j < |vs|
  {
  }

  lemma {:induction false} CollapsedStretches(vs: seq<Seg>, w: Seg)
    requires w in Collapsed(vs)
    ensures FromStretch(vs, w)
  {
    hide Stretch;
    StretchOne(vs, 0);
    assert vs == [vs[0]] + vs[1..];
    CollapsedFrom(vs, 0, 0, vs[0], w);
  }
}
