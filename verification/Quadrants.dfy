/**
  A quadrant of the sequence space as it is stored: a doubly linked list of segment records, changed in place.
 */
module Quadrants {
  import opened Segments
  import opened Acks

  const QUADSIZE: nat := 0x4000_0000

  class Segment {
    var first: nat
    var last: nat
    var retrans: nat
    var acked: nat
    var time: int
    var next: Segment?
    var prev: Segment?

    /** create_seg. */
    constructor (first: nat, len: nat, now: int)
      requires len > 0
      ensures Value() == Seg(first, first + len - 1, 0, 0, now)
    {
      this.first, last, retrans, acked, time := first, first + len - 1, 0, 0, now;
      next, prev := null, null;
    }

    function Value(): Seg
      reads this`first, this`last, this`retrans, this`acked, this`time
    {
      Seg(first, last, retrans, acked, time)
    }
  }

  ghost predicate Among(ss: seq<Segment>, r: set<Segment>) {
    forall i :: 0 <= i < |ss| ==> ss[i] in r
  }

  ghost function ValsOf(ss: seq<Segment>, r: set<Segment>): (vs: seq<Seg>)
    requires Among(ss, r)
    reads r`first, r`last, r`retrans, r`acked, r`time
    ensures |vs| == |ss| && forall i :: 0 <= i < |ss| ==> vs[i] == ss[i].Value()
  {
    if ss == [] then [] else ValsOf(ss[..|ss| - 1], r) + [ss[|ss| - 1].Value()]
  }

  function Get(ss: seq<Segment>, i: int): Segment? {
    if 0 <= i < |ss| then ss[i] else null
  }

  ghost predicate Distinct(ss: seq<Segment>) {
    forall i, j :: 0 <= i < j < |ss| ==> ss[i] != ss[j]
  }

  /** The links follow the sequence. */
  ghost predicate Chained(ss: seq<Segment>, r: set<Segment>)
    requires Among(ss, r)
    reads r`next, r`prev
  {
    && Distinct(ss)
    && (forall i {:trigger ss[i].next} :: 0 <= i < |ss| ==> ss[i].next == Get(ss, i + 1))
    && (forall i {:trigger ss[i].prev} :: 0 <= i < |ss| ==> ss[i].prev == Get(ss, i - 1))
  }

  function Inserted<T>(ss: seq<T>, i: nat, s: T): seq<T>
    requires i <= |ss|
  {
    ss[..i] + [s] + ss[i..]
  }

  lemma {:induction false} InsertedAt<T>(ss: seq<T>, i: nat, s: T)
    requires i <= |ss|
    ensures |Inserted(ss, i, s)| == |ss| + 1
    ensures forall k {:trigger Inserted(ss, i, s)[k]} :: 0 <= k <= |ss| ==>
              Inserted(ss, i, s)[k] == if k < i then ss[k] else if k == i then s else ss[k - 1]
  {
  }

  lemma {:induction false} InsertedDistinct(ss: seq<Segment>, i: nat, s: Segment, r: set<Segment>)
    requires i <= |ss| && Distinct(ss) && Among(ss, r) && s !in r
    ensures Distinct(Inserted(ss, i, s)) && Among(Inserted(ss, i, s), r + {s})
  {
    InsertedAt(ss, i, s);
    hide Inserted;
  }

  lemma {:induction false} InsertedOver<T>(ss: seq<T>, i: nat, s: T, t: T)
    requires i <= |ss|
    ensures i < |Inserted(ss, i, s)| && Inserted(ss, i, s)[i := t] == Inserted(ss, i, t)
  {
  }

  /** All but one link follow the sequence. */
  ghost predicate NextBut(ss: seq<Segment>, r: set<Segment>, i: int)
    requires Among(ss, r)
    reads r`next
  {
    forall k {:trigger ss[k].next} :: 0 <= k < |ss| && k != i ==> ss[k].next == Get(ss, k + 1)
  }

  ghost predicate PrevBut(ss: seq<Segment>, r: set<Segment>, i: int)
    requires Among(ss, r)
    reads r`prev
  {
    forall k {:trigger ss[k].prev} :: 0 <= k < |ss| && k != i ==> ss[k].prev == Get(ss, k - 1)
  }

  lemma {:induction false} InsertedChained(ss: seq<Segment>, r: set<Segment>, i: nat, s: Segment)
    requires i <= |ss| && Among(ss, r) && Distinct(ss) && s !in r
    requires NextBut(ss, r, i - 1) && (i > 0 ==> ss[i - 1].next == s) && s.next == Get(ss, i)
    requires PrevBut(ss, r, i) && (i < |ss| ==> ss[i].prev == s) && s.prev == Get(ss, i - 1)
    ensures Among(Inserted(ss, i, s), r + {s}) && Chained(Inserted(ss, i, s), r + {s})
  {
    InsertedAt(ss, i, s);
    InsertedDistinct(ss, i, s, r);
    hide Inserted;
    var ts := Inserted(ss, i, s);
    forall k | 0 <= k < |ts| ensures ts[k].next == Get(ts, k + 1) && ts[k].prev == Get(ts, k - 1) {
      if k < i {
        assert ts[k] == ss[k];
      } else if k > i {
        assert ts[k] == ss[k - 1];
      }
    }
  }

  function Removed<T>(ss: seq<T>, i: nat): seq<T>
    requires i < |ss|
  {
    ss[..i] + ss[i + 1..]
  }

  lemma {:induction false} RemovedAt<T>(ss: seq<T>, i: nat)
    requires i < |ss|
    ensures |Removed(ss, i)| == |ss| - 1
    ensures forall k {:trigger Removed(ss, i)[k]} :: 0 <= k < |ss| - 1 ==>
              Removed(ss, i)[k] == if k < i then ss[k] else ss[k + 1]
  {
  }

  lemma {:induction false} RemovedVals(ss: seq<Segment>, i: nat, r: set<Segment>)
    requires i < |ss| && Among(ss, r)
    ensures Among(Removed(ss, i), r) && ValsOf(Removed(ss, i), r) == Removed(ValsOf(ss, r), i)
  {
    RemovedAt(ss, i);
    RemovedAt(ValsOf(ss, r), i);
    hide Removed, ValsOf;
    assert forall k :: 0 <= k < |ss| - 1 ==> ValsOf(Removed(ss, i), r)[k] == Removed(ValsOf(ss, r), i)[k];
  }

  lemma {:induction false} InsertedVals(ss: seq<Segment>, i: nat, s: Segment, r: set<Segment>)
    requires i <= |ss| && Among(ss, r)
    ensures Among(Inserted(ss, i, s), r + {s})
    ensures ValsOf(Inserted(ss, i, s), r + {s}) == Inserted(ValsOf(ss, r), i, s.Value())
  {
    InsertedAt(ss, i, s);
    InsertedAt(ValsOf(ss, r), i, s.Value());
    hide Inserted, ValsOf;
    assert Among(Inserted(ss, i, s), r + {s});
    assert forall k :: 0 <= k <= |ss| ==>
      ValsOf(Inserted(ss, i, s), r + {s})[k] == Inserted(ValsOf(ss, r), i, s.Value())[k];
  }

  // ----- a list read from position i on -----

  /** A range that starts beyond the last segment goes to the end. */
  lemma {:induction false} AddedBeyond(vs: seq<Seg>, first: nat, last: nat, now: int, lo: nat, hi: nat)
    requires Sorted(vs, lo, hi) && first <= last && (vs != [] ==> vs[|vs| - 1].last < first)
    ensures Added(vs, first, last, false, now) == vs + Added([], first, last, false, now)
    ensures Overlap(vs, first, last) == 0 && !OutOfOrder(vs, first, last)
  {
    if vs != [] {
      assert vs[0].last <= vs[|vs| - 1].last;
      SortedTail(vs, lo, hi);
      AddedBeyond(vs[1..], first, last, now, vs[0].last + 1, hi);
      assert vs == [vs[0]] + vs[1..];
    }
  }

  /** What is left to do with a range after the segments before position i. */
  ghost predicate Remains(vs: seq<Seg>, i: nat, first: nat, last: nat, split: bool, now: int,
                          rexlen: int, outOfOrder: bool, all: seq<Seg>, overlap: int, wasOut: bool) {
    && i <= |vs| && first <= last && (forall k :: i <= k < |vs| ==> vs[k].first <= vs[k].last)
    && all == vs[..i] + Added(vs[i..], first, last, split, now)
    && overlap == rexlen + Overlap(vs[i..], first, last)
    && (wasOut <==> outOfOrder || OutOfOrder(vs[i..], first, last))
  }

  lemma {:induction false} RemainsFirst(vs: seq<Seg>, i: nat, first: nat, last: nat, now: int, lo: nat, hi: nat)
    requires Sorted(vs, lo, hi) && first <= last
    requires i == 0 || (i == |vs| && vs[i - 1].last < first)
    ensures Remains(vs, i, first, last, false, now, 0, false, Added(vs, first, last, false, now),
                    Overlap(vs, first, last), OutOfOrder(vs, first, last))
  {
    if i == 0 {
      assert vs[0..] == vs;
    } else {
      AddedBeyond(vs, first, last, now, lo, hi);
      assert vs[..|vs|] == vs && vs[|vs|..] == [];
    }
  }

  lemma {:induction false} RemainsLast(vs: seq<Seg>, first: nat, last: nat, split: bool, now: int,
                                       rexlen: int, out: bool, all: seq<Seg>, overlap: int, wasOut: bool)
    requires Remains(vs, |vs|, first, last, split, now, rexlen, out, all, overlap, wasOut)
    ensures all == Inserted(vs, |vs|, Seg(first, last, 0, 0, now)) && overlap == rexlen && wasOut == out
  {
    assert vs[..|vs|] == vs && vs[|vs|..] == [];
  }

  lemma {:induction false} At(vs: seq<Seg>, i: nat)
    requires i < |vs|
    ensures vs[i..] == [vs[i]] + vs[i + 1..] && vs[..i + 1] == vs[..i] + [vs[i]] && vs[i..][1..] == vs[i + 1..]
  {
  }

  lemma {:induction false} RemainsPast(vs: seq<Seg>, i: nat, first: nat, last: nat, split: bool, now: int,
                                       rexlen: int, out: bool, all: seq<Seg>, overlap: int, wasOut: bool)
    requires Remains(vs, i, first, last, split, now, rexlen, out, all, overlap, wasOut)
    requires i < |vs| && first > vs[i].last
    ensures Remains(vs, i + 1, first, last, split, now, rexlen, out, all, overlap, wasOut)
  {
    At(vs, i);
    assert vs[..i] + ([vs[i]] + Added(vs[i + 1..], first, last, split, now))
           == vs[..i] + [vs[i]] + Added(vs[i + 1..], first, last, split, now);
  }

  lemma {:induction false} RemainsBefore(vs: seq<Seg>, i: nat, first: nat, last: nat, split: bool, now: int,
                                         rexlen: int, out: bool, all: seq<Seg>, overlap: int, wasOut: bool)
    requires Remains(vs, i, first, last, split, now, rexlen, out, all, overlap, wasOut)
    requires i < |vs| && first < vs[i].first
    ensures vs[i].first <= vs[i].last
    ensures last < vs[i].first ==>
              && all == Inserted(vs, i, Seg(first, last, 0, 0, now))
              && overlap == rexlen && (wasOut <==> out || last < vs[i].last)
    ensures last >= vs[i].first ==>
              Remains(Inserted(vs, i, Seg(first, vs[i].first - 1, 0, 0, now)), i + 1, vs[i].first, last, split, now,
                      rexlen, out || last < vs[i].last, all, overlap, wasOut)
  {
    At(vs, i);
    if last >= vs[i].first {
      var s := Seg(first, vs[i].first - 1, 0, 0, now);
      var ws := Inserted(vs, i, s);
      assert ws[..i + 1] == vs[..i] + [s] && ws[i + 1..] == vs[i..];
      assert vs[..i] + ([s] + Added(vs[i..], vs[i].first, last, split, now))
             == ws[..i + 1] + Added(vs[i..], vs[i].first, last, split, now);
      if last < vs[i].last { assert !OutOfOrder(vs[i..], vs[i].first, last); }
    }
  }

  lemma {:induction false} RemainsWithin(vs: seq<Seg>, i: nat, first: nat, last: nat, split: bool, now: int,
                                         rexlen: int, out: bool, all: seq<Seg>, overlap: int, wasOut: bool)
    requires Remains(vs, i, first, last, split, now, rexlen, out, all, overlap, wasOut)
    requires i < |vs| && vs[i].first <= first <= vs[i].last
    ensures last <= vs[i].last ==>
              && all == vs[i := Resent(vs[i], split, now)]
              && overlap == rexlen + last - first + 1 && (wasOut <==> out)
    ensures last > vs[i].last ==>
              Remains(vs[i := Resent(vs[i], split, now)], i + 1, vs[i].last + 1, last, true, now,
                      rexlen + vs[i].last - first + 1, out, all, overlap, wasOut)
  {
    At(vs, i);
    var v := Resent(vs[i], split, now);
    var ws := vs[i := v];
    assert ws[..i + 1] == vs[..i] + [v] && ws[i + 1..] == vs[i + 1..];
    if last > vs[i].last {
      assert vs[..i] + ([v] + Added(vs[i + 1..], vs[i].last + 1, last, true, now))
             == ws[..i + 1] + Added(vs[i + 1..], vs[i].last + 1, last, true, now);
    } else {
      assert ws == vs[..i] + ([v] + vs[i + 1..]);
    }
  }

  // ----- a pass over the list that acknowledges or collapses, at position i -----

  ghost predicate CumulateRest(vs: seq<Seg>, i: nat, sc: Scan, r: (seq<Seg>, Scan)) {
    i <= |vs| && r.0 == vs[..i] + CumulatedAll(vs[i..], sc).0 && r.1 == CumulatedAll(vs[i..], sc).1
  }

  lemma {:induction false} CumulateFirst(vs: seq<Seg>, sc: Scan)
    ensures CumulateRest(vs, 0, sc, CumulatedAll(vs, sc))
  {
    assert vs[0..] == vs;
  }

  lemma {:induction false} CumulateNext(vs: seq<Seg>, i: nat, sc: Scan, r: (seq<Seg>, Scan))
    requires CumulateRest(vs, i, sc, r) && i < |vs|
    ensures CumulateRest(vs[i := Cumulated(vs[i], sc).0], i + 1, Cumulated(vs[i], sc).1, r)
  {
    At(vs, i);
    var v := Cumulated(vs[i], sc).0;
    assert vs[i := v][..i + 1] == vs[..i] + [v] && vs[i := v][i + 1..] == vs[i + 1..];
  }

  lemma {:induction false} CumulateLast(vs: seq<Seg>, sc: Scan, r: (seq<Seg>, Scan))
    requires CumulateRest(vs, |vs|, sc, r)
    ensures r.0 == vs && r.1 == sc
  {
    assert vs[|vs|..] == [];
  }

  ghost predicate ScanRest(vs: seq<Seg>, i: nat, a: Ack, sc: Scan, r: (seq<Seg>, Scan)) {
    && i <= |vs| && |sc.stats.buckets| == BUCKETS
    && r.0 == vs[..i] + Scanned(vs[i..], a, sc).0 && r.1 == Scanned(vs[i..], a, sc).1
  }

  lemma {:induction false} ScanFirst(vs: seq<Seg>, a: Ack, sc: Scan)
    requires |sc.stats.buckets| == BUCKETS
    ensures ScanRest(vs, 0, a, sc, Scanned(vs, a, sc))
  {
    assert vs[0..] == vs;
  }

  lemma {:induction false} ScanNext(vs: seq<Seg>, i: nat, a: Ack, sc: Scan, r: (seq<Seg>, Scan))
    requires ScanRest(vs, i, a, sc, r) && i < |vs| && a.ack > vs[i].first
    ensures ScanRest(vs[i := One(vs[i], a, sc).0], i + 1, a, One(vs[i], a, sc).1, r)
  {
    At(vs, i);
    OneBytes(vs[i], a, sc);
    hide One;
    var v := One(vs[i], a, sc).0;
    assert vs[i := v][..i + 1] == vs[..i] + [v] && vs[i := v][i + 1..] == vs[i + 1..];
  }

  lemma {:induction false} ScanLast(vs: seq<Seg>, i: nat, a: Ack, sc: Scan, r: (seq<Seg>, Scan))
    requires ScanRest(vs, i, a, sc, r) && (i < |vs| ==> a.ack <= vs[i].first)
    ensures r.0 == vs && r.1 == sc
  {
    assert vs == vs[..i] + vs[i..];
  }

  ghost predicate CollapseRest(vs: seq<Seg>, i: nat, r: seq<Seg>) {
    i < |vs| && r == vs[..i] + Collapsed(vs[i..])
  }

  lemma {:induction false} CollapseFirst(vs: seq<Seg>)
    requires vs != []
    ensures CollapseRest(vs, 0, Collapsed(vs))
  {
    assert vs[0..] == vs;
  }

  lemma {:induction false} CollapseNext(vs: seq<Seg>, i: nat, r: seq<Seg>)
    requires CollapseRest(vs, i, r) && i + 1 < |vs| && vs[i].acked > 0 && !Joins(vs[i], vs[i + 1])
    ensures CollapseRest(vs, i + 1, r)
  {
    At(vs, i);
  }

  lemma {:induction false} CollapseJoin(vs: seq<Seg>, i: nat, r: seq<Seg>)
    requires CollapseRest(vs, i, r) && i + 1 < |vs| && Joins(vs[i], vs[i + 1])
    ensures CollapseRest(Removed(vs[i := Joined(vs[i], vs[i + 1])], i + 1), i, r)
  {
    var ws := Removed(vs[i := Joined(vs[i], vs[i + 1])], i + 1);
    assert ws[..i] == vs[..i] && ws[i..] == [Joined(vs[i], vs[i + 1])] + vs[i..][2..];
  }

  lemma {:induction false} CollapseLast(vs: seq<Seg>, i: nat, r: seq<Seg>)
    requires CollapseRest(vs, i, r) && (i + 1 == |vs| || vs[i].acked == 0)
    ensures r == vs
  {
    assert vs == vs[..i] + vs[i..];
  }

  class Quadrant {
    var head: Segment?
    var tail: Segment?
    var full: bool
    var prev: Quadrant?
    var next: Quadrant?
    ghost var segs: seq<Segment>
    ghost var repr: set<Segment>

    constructor ()
      ensures Linked() && segs == [] && repr == {} && !full && prev == null && next == null
      ensures Vals() == [] && forall k: nat :: Valid(k)
    {
      head, tail, full, prev, next, segs, repr := null, null, false, null, null, [], {};
    }

    ghost predicate Linked()
      reads this`head, this`tail, this`segs, this`repr, repr`next, repr`prev
    {
      Among(segs, repr) && Chained(segs, repr) && head == Get(segs, 0) && tail == Get(segs, |segs| - 1)
    }

    ghost function Vals(): seq<Seg>
      requires Among(segs, repr)
      reads this`segs, this`repr, repr`first, repr`last, repr`retrans, repr`acked, repr`time
    {
      ValsOf(segs, repr)
    }

    /** A well-formed list of segments within quadrant k. */
    ghost predicate Valid(k: nat)
      reads this`head, this`tail, this`segs, this`repr, repr
    {
      Linked() && Sorted(Vals(), k * QUADSIZE, (k + 1) * QUADSIZE)
    }

    /** insert_seg_between. */
    method Insert(s: Segment, before: Segment?, after: Segment?, ghost i: nat)
      requires Linked() && s !in repr && i <= |segs| && before == Get(segs, i - 1) && after == Get(segs, i)
      modifies this`head, this`tail, this`segs, this`repr, s`next, s`prev, repr`next, repr`prev
      ensures Linked() && segs == Inserted(old(segs), i, s) && repr == old(repr) + {s}
    {
      ghost var ss, r := segs, repr;
      InsertedAt(ss, i, s);
      hide Inserted;
      s.next := after;
      if after != null {
        after.prev := s;
      } else {
        tail := s;
      }
      s.prev := before;
      if before != null {
        before.next := s;
      } else {
        head := s;
      }
      InsertedChained(ss, r, i, s);
      segs, repr := Inserted(ss, i, s), r + {s};
    }

    /** Unlinks the segment after p, which has been joined to it. */
    method RemoveNext(p: Segment, ghost i: nat)
      requires Linked() && i + 1 < |segs| && p == segs[i]
      modifies this`tail, this`segs, repr`next, repr`prev
      ensures Linked() && segs == Removed(old(segs), i + 1)
    {
      var gone := p.next;
      p.next := gone.next;
      if p.next != null {
        p.next.prev := p;
      }
      if gone == tail {
        tail := p;
      }
      segs := Removed(segs, i + 1);
    }

    lemma {:induction false} NextOf(i: nat)
      requires Linked() && i < |segs|
      ensures segs[i] in repr && segs[i].next == Get(segs, i + 1) && segs[i].prev == Get(segs, i - 1)
    {
    }

    /** A new segment goes before position i. */
    method InsertNew(s: Segment, before: Segment?, after: Segment?, ghost i: nat)
      requires Linked() && s !in repr && i <= |segs| && before == Get(segs, i - 1) && after == Get(segs, i)
      modifies this`head, this`tail, this`segs, this`repr, s`next, s`prev, repr`next, repr`prev
      ensures Linked() && segs == Inserted(old(segs), i, s) && repr == old(repr) + {s}
      ensures Vals() == Inserted(old(Vals()), i, s.Value())
    {
      hide Inserted;
      InsertedVals(segs, i, s, repr);
      Insert(s, before, after, i);
    }

    /** Counts a retransmission of segment i. */
    method Touch(p: Segment, split: bool, now: int, ghost i: nat)
      requires Linked() && i < |segs| && p == segs[i]
      modifies p`retrans, p`time
      ensures Linked() && Vals() == old(Vals())[i := Resent(old(Vals())[i], split, now)]
    {
      p.retrans := (p.retrans + 1) % 256;
      if !split {
        p.time := now;
      }
    }

    method Trim(s: Segment, last: nat, ghost i: nat)
      requires Linked() && i < |segs| && s == segs[i]
      modifies s`last
      ensures Linked() && Vals() == old(Vals())[i := old(Vals())[i].(last := last)]
    {
      s.last := last;
    }

    /** A new segment for the part of a range that comes before segment i. */
    method PutBefore(p: Segment, first: nat, last: nat, now: int, ghost i: nat)
      requires Linked() && i < |segs| && p == segs[i] && first <= last && first < p.first
      modifies this`head, this`tail, this`segs, this`repr, repr`next, repr`prev
      ensures Linked() && fresh(repr - old(repr)) && |segs| == old(|segs|) + 1 && segs[i + 1] == p
      ensures Vals() == Inserted(old(Vals()), i, Seg(first, if last < p.first then last else p.first - 1, 0, 0, now))
    {
      hide ValsOf, Inserted, Chained;
      NextOf(i);
      var s := new Segment(first, last - first + 1, now);
      InsertedAt(segs, i, s);
      InsertedAt(Vals(), i, s.Value());
      InsertedOver(Vals(), i, s.Value(), s.Value().(last := p.first - 1));
      InsertNew(s, p.prev, p, i);
      if last >= p.first {
        Trim(s, p.first - 1, i);
      }
    }

    /** The part of the range before segment i gets a segment of its own; done if that is all of it. */
    method Precede(p: Segment, first: nat, last: nat, split: bool, now: int, ghost i: nat,
                   ghost rexlen: int, out: bool, ghost all: seq<Seg>, ghost overlap: int, ghost wasOut: bool)
      returns (done: bool, out': bool)
      requires Linked() && i < |segs| && p == segs[i] && first < p.first && first <= last
      requires Remains(Vals(), i, first, last, split, now, rexlen, out, all, overlap, wasOut)
      modifies this`head, this`tail, this`segs, this`repr, repr`next, repr`prev
      ensures Linked() && fresh(repr - old(repr)) && |segs| == old(|segs|) + 1 && segs[i + 1] == p
      ensures done ==> Vals() == all && overlap == rexlen && wasOut == out'
      ensures !done ==> p.first <= last && p.first <= p.last
      ensures !done ==> Remains(Vals(), i + 1, p.first, last, split, now, rexlen, out', all, overlap, wasOut)
    {
      hide Remains, Inserted, ValsOf, Chained;
      RemainsBefore(Vals(), i, first, last, split, now, rexlen, out, all, overlap, wasOut);
      out' := out || last < p.last;
      PutBefore(p, first, last, now, i);
      done := last < p.first;
    }

    /** The part of the range within segment i is a retransmission; done if the range ends there. */
    method Repeat(p: Segment, first: nat, last: nat, split: bool, now: int, ghost i: nat,
                  rexlen: nat, ghost out: bool, ghost all: seq<Seg>, ghost overlap: int, ghost wasOut: bool)
      returns (done: bool, rexlen': nat)
      requires Linked() && i < |segs| && p == segs[i] && p.first <= first <= p.last && first <= last
      requires Remains(Vals(), i, first, last, split, now, rexlen, out, all, overlap, wasOut)
      modifies p`retrans, p`time
      ensures Linked()
      ensures done ==> Vals() == all && overlap == rexlen' && wasOut == out
      ensures !done ==> p.last < last
      ensures !done ==> Remains(Vals(), i + 1, p.last + 1, last, true, now, rexlen', out, all, overlap, wasOut)
    {
      hide Remains, ValsOf, Chained;
      RemainsWithin(Vals(), i, first, last, split, now, rexlen, out, all, overlap, wasOut);
      Touch(p, split, now, i);
      done := last <= p.last;
      rexlen' := rexlen + (if done then last else p.last) - first + 1;
    }

    /** What does not touch any further segment goes to the end of the list. */
    method PutLast(first: nat, last: nat, split: bool, now: int,
                   ghost rexlen: int, ghost out: bool, ghost all: seq<Seg>, ghost overlap: int, ghost wasOut: bool)
      requires Linked() && first <= last
      requires Remains(Vals(), |segs|, first, last, split, now, rexlen, out, all, overlap, wasOut)
      modifies this`head, this`tail, this`segs, this`repr, repr`next, repr`prev
      ensures Linked() && fresh(repr - old(repr))
      ensures Vals() == all && overlap == rexlen && wasOut == out
    {
      hide Remains, ValsOf, Chained, Inserted;
      RemainsLast(Vals(), first, last, split, now, rexlen, out, all, overlap, wasOut);
      var s := new Segment(first, last - first + 1, now);
      InsertNew(s, tail, null, |segs|);
    }

    /** One round of the walk over the list. */
    method Round(p: Segment, first: nat, last: nat, split: bool, now: int, ghost i: nat,
                 rexlen: nat, out: bool, ghost all: seq<Seg>, ghost overlap: int, ghost wasOut: bool)
      returns (done: bool, first': nat, split': bool, rexlen': nat, out': bool, ghost i': nat)
      requires Linked() && i < |segs| && p == segs[i] && first <= last
      requires Remains(Vals(), i, first, last, split, now, rexlen, out, all, overlap, wasOut)
      modifies this`head, this`tail, this`segs, this`repr, repr
      ensures Linked() && fresh(repr - old(repr))
      ensures done ==> Vals() == all && overlap == rexlen' && wasOut == out'
      ensures !done ==> i' < |segs| && p == segs[i'] && |segs| - i' == old(|segs|) - i && first' <= last
      ensures !done ==> Remains(Vals(), i' + 1, first', last, split', now, rexlen', out', all, overlap, wasOut)
    {
      hide Remains, ValsOf, Chained;
      done, first', split', rexlen', out', i' := false, first, split, rexlen, out, i;
      if first > p.last {
        RemainsPast(Vals(), i, first, last, split, now, rexlen, out, all, overlap, wasOut);
        return;
      }
      if first < p.first {
        done, out' := Precede(p, first, last, split, now, i, rexlen, out, all, overlap, wasOut);
        if done {
          return;
        }
        first', i' := p.first, i + 1;
      }
      done, rexlen' := Repeat(p, first', last, split, now, i', rexlen, out', all, overlap, wasOut);
      if !done {
        split', first' := true, p.last + 1;
      }
    }

    /** The walk over the list, from its segment `at` on. */
    method Sweep(from: Segment?, start: nat, last: nat, now: int, ghost at: nat,
                 ghost all: seq<Seg>, ghost overlap: int, ghost wasOut: bool)
      returns (rexlen: nat, outOfOrder: bool)
      requires Linked() && from == Get(segs, at) && at <= |segs| && start <= last
      requires Remains(Vals(), at, start, last, false, now, 0, false, all, overlap, wasOut)
      modifies this`head, this`tail, this`segs, this`repr, repr
      ensures Linked() && fresh(repr - old(repr))
      ensures Vals() == all && overlap == rexlen && wasOut == outOfOrder
    {
      hide ValsOf, Remains, Chained;
      ghost var i: nat := at;
      var p, first: nat, split, done := from, start, false, false;
      rexlen, outOfOrder := 0, false;
      while p != null
        invariant Linked() && p == Get(segs, i) && i <= |segs| && first <= last && fresh(repr - old(repr))
        invariant Remains(Vals(), i, first, last, split, now, rexlen, outOfOrder, all, overlap, wasOut)
        decreases |segs| - i
      {
        done, first, split, rexlen, outOfOrder, i :=
          Round(p, first, last, split, now, i, rexlen, outOfOrder, all, overlap, wasOut);
        if done {
          return;
        }
        NextOf(i);
        p, i := p.next, i + 1;
      }
      PutLast(first, last, split, now, rexlen, outOfOrder, all, overlap, wasOut);
    }

    /** addseg: the range of `len` bytes from `start` was sent at time now. */
    method AddSeg(start: nat, len: nat, now: int, ghost lo: nat, ghost hi: nat)
      returns (rexlen: nat, outOfOrder: bool)
      requires Linked() && Sorted(Vals(), lo, hi) && len > 0
      modifies this`head, this`tail, this`segs, this`repr, repr
      ensures Linked() && fresh(repr - old(repr))
      ensures Vals() == Added(old(Vals()), start, start + len - 1, false, now)
      ensures rexlen == Overlap(old(Vals()), start, start + len - 1)
      ensures outOfOrder == OutOfOrder(old(Vals()), start, start + len - 1)
    {
      hide Added, Overlap, OutOfOrder, ValsOf, Sorted, Remains, Chained;
      var last: nat := start + len - 1;
      ghost var all, overlap, out := Added(Vals(), start, last, false, now), Overlap(Vals(), start, last),
                                     OutOfOrder(Vals(), start, last);
      ghost var i: nat := 0;
      var p := head;
      if tail != null && start > tail.last {
        p, i := null, |segs|;
      }
      RemainsFirst(Vals(), i, start, last, now, lo, hi);
      rexlen, outOfOrder := Sweep(p, start, last, now, i, all, overlap, out);
    }

    /** addseg within quadrant k. */
    method Add(k: nat, start: nat, len: nat, now: int) returns (rexlen: nat, outOfOrder: bool)
      requires Valid(k) && len > 0 && k * QUADSIZE <= start && start + len <= (k + 1) * QUADSIZE
      modifies this`head, this`tail, this`segs, this`repr, repr
      ensures Valid(k) && fresh(repr - old(repr))
      ensures Vals() == Added(old(Vals()), start, start + len - 1, false, now)
      ensures rexlen == Overlap(old(Vals()), start, start + len - 1)
      ensures outOfOrder == OutOfOrder(old(Vals()), start, start + len - 1)
    {
      hide Added, Overlap, OutOfOrder, ValsOf, Sorted, Chained;
      AddedSorted(Vals(), start, start + len - 1, false, now, k * QUADSIZE, (k + 1) * QUADSIZE);
      rexlen, outOfOrder := AddSeg(start, len, now, k * QUADSIZE, (k + 1) * QUADSIZE);
    }

    method SetAcked(p: Segment, acked: nat, ghost i: nat)
      requires Linked() && i < |segs| && p == segs[i]
      modifies p`acked
      ensures Linked() && Vals() == old(Vals())[i := old(Vals())[i].(acked := acked)]
    {
      p.acked := acked;
    }

    /** The first loop of ack_in: acknowledges every segment. */
    method Cumulate(sc0: Scan) returns (sc: Scan)
      requires Linked()
      modifies repr`acked
      ensures Linked() && Vals() == CumulatedAll(old(Vals()), sc0).0 && sc == CumulatedAll(old(Vals()), sc0).1
    {
      hide CumulateRest, CumulatedAll, Chained, ValsOf;
      sc := sc0;
      ghost var r, i := CumulatedAll(Vals(), sc), 0;
      CumulateFirst(Vals(), sc);
      var p := head;
      while p != null
        invariant Linked() && 0 <= i <= |segs| && p == Get(segs, i) && CumulateRest(Vals(), i, sc, r)
        decreases |segs| - i
      {
        CumulateNext(Vals(), i, sc, r);
        NextOf(i);
        if p.acked == 0 {
          SetAcked(p, 1, i);
          var newest := if p.time > sc.lastXmit then p.time else sc.lastXmit;
          sc := Scan(sc.stats.(cumack := sc.stats.cumack + 1), newest, true, sc.reply);
        } else {
          assert Vals()[i := Vals()[i]] == Vals();
        }
        p, i := p.next, i + 1;
      }
      CumulateLast(Vals(), sc, r);
    }

    /** The counting of rtt_ackin. */
    method RttAckin(p: Segment, a: Ack, intervening: bool, sc: Scan) returns (sc': Scan)
      requires |sc.stats.buckets| == BUCKETS
      ensures sc' == Sampled(p.Value(), a, intervening, sc)
    {
      var st := sc.stats;
      if intervening {
        sc' := sc.(stats := st.(nosample := st.nosample + 1), reply := NoSample);
      } else if p.retrans == 0 {
        var rtt := a.now - p.time;
        var b := 5;
        if rtt < 101 {
          b := 0;
        } else if rtt < 251 {
          b := 1;
        } else if rtt < 501 {
          b := 2;
        } else if rtt < 751 {
          b := 3;
        } else if rtt < 1001 {
          b := 4;
        }
        st := st.(buckets := st.buckets[b := st.buckets[b] + 1]);
        sc' := sc.(stats := st.(count := st.count + 1), reply := Normal);
      } else {
        sc' := sc.(stats := st.(amback := st.amback + 1), reply := Ambig);
      }
    }

    /** An acknowledgement of a segment acknowledged before. */
    method AckAgain(p: Segment, a: Ack, sc: Scan, ghost i: nat) returns (sc': Scan)
      requires Linked() && i < |segs| && p == segs[i]
      modifies p`acked
      ensures Linked()
      ensures Vals() == old(Vals())[i := Again(old(Vals())[i], a, sc).0] && sc' == Again(old(Vals())[i], a, sc).1
    {
      hide Chained, ValsOf;
      sc' := sc;
      var st := sc.stats;
      if !a.bsd {
        if a.ack == p.last + 1 {
          SetAcked(p, (p.acked + 1) % WORD, i);
          st := st.(dupack := st.dupack + 1);
          sc' := sc.(stats := st, reply := Cumul);
          if p.acked == 4 && (a.dataLen == 0 || a.dataAllowed) {
            sc' := sc.(stats := st.(triple := st.triple + 1), reply := Triple);
          }
        } else {
          assert Vals()[i := Vals()[i]] == Vals();
        }
      } else if a.ack == p.last + 1 && a.ack == a.winAck && a.dataLen == 0 && a.effWin == a.winLast && a.owin > 0 {
        st := st.(dupack := st.dupack + 1);
        sc' := sc.(stats := st, reply := Cumul);
        SetAcked(p, (p.acked + 1) % WORD, i);
        if p.acked == 4 {
          sc' := sc.(stats := st.(triple := st.triple + 1), reply := Triple);
        }
      } else {
        SetAcked(p, 1, i);
      }
    }

    /** One segment of the current quadrant that starts below the acknowledgement. */
    method AckOne(p: Segment, a: Ack, sc: Scan, ghost i: nat) returns (sc': Scan)
      requires Linked() && i < |segs| && p == segs[i] && |sc.stats.buckets| == BUCKETS
      modifies p`acked
      ensures Linked()
      ensures Vals() == old(Vals())[i := One(old(Vals())[i], a, sc).0] && sc' == One(old(Vals())[i], a, sc).1
    {
      hide Chained, ValsOf, Again, Sampled;
      sc' := sc;
      if p.time > sc'.lastXmit {
        sc' := sc'.(lastXmit := p.time);
      }
      if p.acked > 0 {
        sc' := AckAgain(p, a, sc', i);
        return;
      }
      SetAcked(p, 1, i);
      sc' := sc'.(changed := true);
      if a.ack == p.last + 1 {
        var intervening := sc'.lastXmit > p.time;
        sc' := RttAckin(p, a, intervening, sc');
      } else {
        sc' := sc'.(stats := sc'.stats.(cumack := sc'.stats.cumack + 1), reply := Cumul);
      }
    }

    /** The second loop of ack_in: the segments that start below the acknowledgement. */
    method ScanAcked(a: Ack, sc0: Scan) returns (sc: Scan)
      requires Linked() && |sc0.stats.buckets| == BUCKETS
      modifies repr`acked
      ensures Linked() && |sc.stats.buckets| == BUCKETS
      ensures Vals() == Scanned(old(Vals()), a, sc0).0 && sc == Scanned(old(Vals()), a, sc0).1
    {
      hide Scanned, Chained, ValsOf, One;
      sc := sc0;
      ghost var r, i := Scanned(Vals(), a, sc), 0;
      ScanFirst(Vals(), a, sc);
      var p := head;
      while p != null && a.ack > p.first
        invariant Linked() && 0 <= i <= |segs| && p == Get(segs, i) && ScanRest(Vals(), i, a, sc, r)
        decreases |segs| - i
      {
        ScanNext(Vals(), i, a, sc, r);
        NextOf(i);
        sc := AckOne(p, a, sc, i);
        p, i := p.next, i + 1;
      }
      ScanLast(Vals(), i, a, sc, r);
    }

    method Absorb(p: Segment, q: Segment, ghost i: nat)
      requires Linked() && i + 1 < |segs| && p == segs[i] && q == segs[i + 1]
      modifies p`last, p`acked, p`time
      ensures Linked() && Vals() == old(Vals())[i := Joined(old(Vals())[i], old(Vals())[i + 1])]
    {
      p.last := q.last;
      p.acked := q.acked;
      if q.time > p.time {
        p.time := q.time;
      }
    }

    /** Joins segment i and the next one. */
    method Join(p: Segment, ghost i: nat)
      requires Linked() && i + 1 < |segs| && p == segs[i]
      modifies this`tail, this`segs, p`last, p`acked, p`time, repr`next, repr`prev
      ensures Linked() && |segs| == old(|segs|) - 1 && segs[i] == p
      ensures Vals() == Removed(old(Vals())[i := Joined(old(Vals())[i], old(Vals())[i + 1])], i + 1)
    {
      hide Chained, ValsOf, Removed;
      NextOf(i);
      Absorb(p, p.next, i);
      RemovedAt(segs, i + 1);
      RemovedVals(segs, i + 1, repr);
      RemoveNext(p, i);
    }

    method JoinAll()
      requires Linked() && segs != []
      modifies this`tail, this`segs, repr
      ensures Linked() && segs != [] && Vals() == Collapsed(old(Vals()))
    {
      hide CollapseRest, Collapsed, Chained, ValsOf, Removed;
      ghost var r, i := Collapsed(Vals()), 0;
      var p := head;
      CollapseFirst(Vals());
      NextOf(0);
      while p.next != null && p.acked > 0
        invariant Linked() && 0 <= i < |segs| && p == segs[i] && p.next == Get(segs, i + 1)
        invariant CollapseRest(Vals(), i, r)
        decreases |segs| - i
      {
        if p.next.acked > 0 && p.last + 1 == p.next.first {
          CollapseJoin(Vals(), i, r);
          Join(p, i);
        } else {
          CollapseNext(Vals(), i, r);
          p, i := p.next, i + 1;
        }
        NextOf(i);
      }
      CollapseLast(Vals(), i, r);
    }

    /** collapse_quad. */
    method Collapse()
      requires Linked()
      modifies this`tail, this`segs, this`full, repr
      ensures Linked() && Vals() == Collapsed(old(Vals()))
      ensures full == (old(full) || (Vals() != [] && Vals()[0].last - Vals()[0].first + 1 == QUADSIZE))
    {
      hide Chained, ValsOf;
      if head == null {
        return;
      }
      hide Collapsed;
      JoinAll();
      if head.last - head.first + 1 == QUADSIZE {
        full := true;
      }
    }

    /** Acknowledges every segment of quadrant k, and collapses it if that changed one. */
    method AckPrevious(k: nat, sc0: Scan) returns (sc: Scan)
      requires Valid(k)
      modifies this`tail, this`segs, this`full, repr
      ensures Valid(k) && sc == CumulatedAll(old(Vals()), sc0).1
      ensures Vals() == CollapsedIf(CumulatedAll(old(Vals()), sc0).0, sc.changed)
    {
      hide Collapsed, CumulatedAll, Chained, ValsOf, Sorted;
      CumulatedBytes(Vals(), sc0, k * QUADSIZE, (k + 1) * QUADSIZE);
      sc := Cumulate(sc0);
      CollapsedIfBytes(Vals(), sc.changed, k * QUADSIZE, (k + 1) * QUADSIZE);
      if sc.changed {
        Collapse();
      }
    }

    /** Acknowledges the segments of quadrant k that start below the acknowledgement, and collapses likewise. */
    method AckCurrent(k: nat, a: Ack, sc0: Scan) returns (sc: Scan)
      requires Valid(k) && |sc0.stats.buckets| == BUCKETS
      modifies this`tail, this`segs, this`full, repr
      ensures Valid(k) && sc == Scanned(old(Vals()), a, sc0).1
      ensures Vals() == CollapsedIf(Scanned(old(Vals()), a, sc0).0, sc.changed)
    {
      hide Collapsed, Scanned, Chained, ValsOf, Sorted;
      ScanBytes(Vals(), a, sc0, k * QUADSIZE, (k + 1) * QUADSIZE);
      sc := ScanAcked(a, sc0);
      CollapsedIfBytes(Vals(), sc.changed, k * QUADSIZE, (k + 1) * QUADSIZE);
      if sc.changed {
        Collapse();
      }
    }
  }
}
