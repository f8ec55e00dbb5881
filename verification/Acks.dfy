/**
  What an arriving acknowledgement does to the segments of the previous and the current quadrant, and how it is
  counted.
 */
module Acks {
  import opened Segments

  const WORD: nat := 0x1_0000_0000

  /** An acknowledgement, with what the connection knows when it arrives. */
  datatype Ack = Ack(ack: nat, dataLen: nat, effWin: nat, now: int,
                     bsd: bool, dataAllowed: bool, winAck: nat, winLast: nat, owin: int)

  datatype Reply = NoReply | Normal | Ambig | Cumul | Triple | NoSample

  datatype Stats = Stats(cumack: nat, nosample: nat, count: nat, amback: nat, dupack: nat, triple: nat,
                         buckets: seq<nat>)

  /** What one scan over the segments carries along. */
  datatype Scan = Scan(stats: Stats, lastXmit: int, changed: bool, reply: Reply)

  const BUCKETS: nat := 6

  function Bucket(rtt: int): (b: nat)
    ensures b < BUCKETS
  {
    if rtt < 101 then 0 else if rtt < 251 then 1 else if rtt < 501 then 2
    else if rtt < 751 then 3 else if rtt < 1001 then 4 else 5
  }

  function Newest(t: int, u: int): int { if u > t then u else t }

  // ----- one segment -----

  predicate Duplicate(v: Seg, a: Ack) {
    && a.ack == v.last + 1
    && (a.bsd ==> a.ack == a.winAck && a.dataLen == 0 && a.effWin == a.winLast && a.owin > 0)
  }

  /** A round-trip sample for a segment acknowledged to its end. */
  function Sampled(v: Seg, a: Ack, intervening: bool, sc: Scan): Scan
    requires |sc.stats.buckets| == BUCKETS
  {
    var st := sc.stats;
    if intervening then sc.(stats := st.(nosample := st.nosample + 1), reply := NoSample)
    else if v.retrans == 0 then
      var b := Bucket(a.now - v.time);
      sc.(stats := st.(count := st.count + 1, buckets := st.buckets[b := st.buckets[b] + 1]), reply := Normal)
    else sc.(stats := st.(amback := st.amback + 1), reply := Ambig)
  }

  /** A segment acknowledged before. */
  function Again(v: Seg, a: Ack, sc: Scan): (Seg, Scan) {
    if Duplicate(v, a) then
      var acked, st := (v.acked + 1) % WORD, sc.stats.(dupack := sc.stats.dupack + 1);
      if acked == 4 && (a.bsd || a.dataLen == 0 || a.dataAllowed)
      then (v.(acked := acked), sc.(stats := st.(triple := st.triple + 1), reply := Triple))
      else (v.(acked := acked), sc.(stats := st, reply := Cumul))
    else (if a.bsd then v.(acked := 1) else v, sc)
  }

  /** A segment that starts below the acknowledgement. */
  function One(v: Seg, a: Ack, sc: Scan): (Seg, Scan)
    requires |sc.stats.buckets| == BUCKETS
  {
    var seen := sc.(lastXmit := Newest(sc.lastXmit, v.time));
    if v.acked > 0 then Again(v, a, seen)
    else
      var acked, mark := v.(acked := 1), seen.(changed := true);
      if a.ack == v.last + 1 then (acked, Sampled(acked, a, mark.lastXmit > v.time, mark))
      else (acked, mark.(stats := mark.stats.(cumack := mark.stats.cumack + 1), reply := Cumul))
  }

  // ----- the current quadrant: segments in order, up to the first that starts at or above the acknowledgement -----

  ghost function Scanned(vs: seq<Seg>, a: Ack, sc: Scan): (r: (seq<Seg>, Scan))
    requires |sc.stats.buckets| == BUCKETS
    ensures |r.0| == |vs| && |r.1.stats.buckets| == BUCKETS
  {
    if vs == [] || a.ack <= vs[0].first then (vs, sc)
    else
      var one := One(vs[0], a, sc);
      var rest := Scanned(vs[1..], a, one.1);
      ([one.0] + rest.0, rest.1)
  }

  // ----- the previous quadrant: every segment -----

  function Cumulated(v: Seg, sc: Scan): (Seg, Scan) {
    if v.acked > 0 then (v, sc)
    else (v.(acked := 1), Scan(sc.stats.(cumack := sc.stats.cumack + 1), Newest(sc.lastXmit, v.time), true, sc.reply))
  }

  ghost function CumulatedAll(vs: seq<Seg>, sc: Scan): (r: (seq<Seg>, Scan))
    ensures |r.0| == |vs| && r.1.stats.buckets == sc.stats.buckets
  {
    if vs == [] then (vs, sc)
    else
      var one := Cumulated(vs[0], sc);
      var rest := CumulatedAll(vs[1..], one.1);
      ([one.0] + rest.0, rest.1)
  }

  ghost function CollapsedIf(vs: seq<Seg>, changed: bool): seq<Seg> {
    if changed then Collapsed(vs) else vs
  }

  /** The whole acknowledgement: previous quadrant, current quadrant, counters and reply. */
  datatype Outcome = Outcome(prev: seq<Seg>, cur: seq<Seg>, stats: Stats, reply: Reply)

  ghost function AckedIn(prev: seq<Seg>, cur: seq<Seg>, a: Ack, st: Stats): Outcome
    requires |st.buckets| == BUCKETS
  {
    var p := CumulatedAll(prev, Scan(st, 0, false, NoReply));
    var c := Scanned(cur, a, p.1.(changed := false));
    Outcome(CollapsedIf(p.0, p.1.changed), CollapsedIf(c.0, c.1.changed), c.1.stats, c.1.reply)
  }

  // ----- counting -----

  /** Segments not yet acknowledged that start below b. */
  function Unacked(vs: seq<Seg>, b: int): nat {
    if vs == [] then 0 else (if vs[0].acked == 0 && vs[0].first < b then 1 else 0) + Unacked(vs[1..], b)
  }

  function Sum(xs: seq<nat>): nat { if xs == [] then 0 else xs[0] + Sum(xs[1..]) }

  function Total(st: Stats): nat { st.cumack + st.nosample + st.count + st.amback }

  /** No counter goes down. */
  predicate Grown(st: Stats, st': Stats) {
    && st.cumack <= st'.cumack && st.nosample <= st'.nosample && st.count <= st'.count && st.amback <= st'.amback
    && st.dupack <= st'.dupack && st.triple <= st'.triple
  }

  /** The histogram holds every sample once. */
  predicate Tallied(st: Stats) {
    |st.buckets| == BUCKETS && Sum(st.buckets) == st.count
  }

  lemma {:induction false} SumUpdate(xs: seq<nat>, i: nat, x: nat)
    requires i < |xs|
    ensures Sum(xs[i := x]) == Sum(xs) - xs[i] + x
  {
    if i == 0 {
      assert xs[0 := x][1..] == xs[1..];
    } else {
      SumUpdate(xs[1..], i - 1, x);
      assert xs[i := x][1..] == xs[1..][i - 1 := x];
    }
  }

  /** A newly acknowledged segment raises exactly one of the four counters, by one; another segment raises none. */
  lemma {:induction false} OneCounted(v: Seg, a: Ack, sc: Scan)
    requires Tallied(sc.stats)
    ensures var (v', sc') := One(v, a, sc);
            && Tallied(sc'.stats) && Grown(sc.stats, sc'.stats)
            && Total(sc'.stats) == Total(sc.stats) + (if v.acked == 0 then 1 else 0)
            && (sc'.changed <==> sc.changed || v.acked == 0)
            && v'.first == v.first && v'.last == v.last && v'.time == v.time && v'.retrans == v.retrans
  {
    var b := Bucket(a.now - v.time);
    SumUpdate(sc.stats.buckets, b, sc.stats.buckets[b] + 1);
  }

  /** Over the current quadrant, the four counters rise together by the number of newly acknowledged segments. */
  lemma {:induction false} ScanCounted(vs: seq<Seg>, a: Ack, sc: Scan, lo: nat, hi: nat)
    requires Tallied(sc.stats) && Sorted(vs, lo, hi)
    ensures var sc' := Scanned(vs, a, sc).1;
            && Tallied(sc'.stats) && Grown(sc.stats, sc'.stats)
            && Total(sc'.stats) == Total(sc.stats) + Unacked(vs, a.ack)
            && (sc'.changed <==> sc.changed || Unacked(vs, a.ack) > 0)
  {
    hide One, Sum, Sorted;
    if vs == [] {
    } else if a.ack <= vs[0].first {
      NoneBelow(vs, a.ack, lo, hi);
    } else {
      SortedTail(vs, lo, hi);
      OneCounted(vs[0], a, sc);
      ScanCounted(vs[1..], a, One(vs[0], a, sc).1, vs[0].last + 1, hi);
    }
  }

  lemma {:induction false} NoneBelow(vs: seq<Seg>, b: int, lo: nat, hi: nat)
    requires Sorted(vs, lo, hi) && (vs != [] ==> b <= vs[0].first)
    ensures Unacked(vs, b) == 0
  {
    if vs != [] {
      SortedTail(vs, lo, hi);
      assert vs[1..] != [] ==> vs[1..][0].first >= vs[0].last + 1;
      NoneBelow(vs[1..], b, vs[0].last + 1, hi);
    }
  }

  /** Over the previous quadrant, only the cumulative counter rises, once for each segment it acknowledges. */
  lemma {:induction false} CumulatedCounted(vs: seq<Seg>, sc: Scan, b: int)
    requires forall i :: 0 <= i < |vs| ==> vs[i].first < b
    ensures var sc' := CumulatedAll(vs, sc).1;
            && sc'.stats == sc.stats.(cumack := sc.stats.cumack + Unacked(vs, b)) && sc'.reply == sc.reply
            && (sc'.changed <==> sc.changed || Unacked(vs, b) > 0)
  {
    if vs != [] {
      CumulatedCounted(vs[1..], Cumulated(vs[0], sc).1, b);
    }
  }

  /** The whole acknowledgement conserves the counts. */
  lemma {:induction false} AckCounted(prev: seq<Seg>, cur: seq<Seg>, a: Ack, st: Stats, lo: nat, mid: nat, lo': nat, hi: nat)
    requires Tallied(st) && Sorted(prev, lo, mid) && Sorted(cur, lo', hi)
    ensures var o := AckedIn(prev, cur, a, st);
            && Tallied(o.stats) && Grown(st, o.stats)
            && Total(o.stats) == Total(st) + Unacked(prev, mid) + Unacked(cur, a.ack)
  {
    var p := CumulatedAll(prev, Scan(st, 0, false, NoReply));
    CumulatedCounted(prev, Scan(st, 0, false, NoReply), mid);
    ScanCounted(cur, a, p.1.(changed := false), lo', hi);
  }

  // ----- which counter rises -----

  /** The newly acknowledged segments, counted one by one. */
  lemma {:induction false} UnackedIs(vs: seq<Seg>, b: int)
    ensures Unacked(vs, b) == |set i | 0 <= i < |vs| && vs[i].acked == 0 && vs[i].first < b|
  {
    if vs != [] {
      var n := |vs| - 1;
      UnackedIs(vs[..n], b);
      UnackedLast(vs, b);
      var s, t := set i | 0 <= i < n && vs[i].acked == 0 && vs[i].first < b,
                  set i | 0 <= i < |vs[..n]| && vs[..n][i].acked == 0 && vs[..n][i].first < b;
      assert s == t;
      var all := set i | 0 <= i < |vs| && vs[i].acked == 0 && vs[i].first < b;
      assert all == s + if vs[n].acked == 0 && vs[n].first < b then {n} else {};
    }
  }

  lemma {:induction false} UnackedLast(vs: seq<Seg>, b: int)
    requires vs != []
    ensures Unacked(vs, b) == Unacked(vs[..|vs| - 1], b)
                              + if vs[|vs| - 1].acked == 0 && vs[|vs| - 1].first < b then 1 else 0
  {
    if |vs| > 1 {
      UnackedLast(vs[1..], b);
      assert vs[..|vs| - 1][1..] == vs[1..][..|vs[1..]| - 1];
    }
  }

  /** The bucket of a round-trip time, by its bounds. */
  predicate InBucket(b: nat, rtt: int) {
    || (b == 0 && rtt < 101) || (b == 1 && 101 <= rtt < 251) || (b == 2 && 251 <= rtt < 501)
    || (b == 3 && 501 <= rtt < 751) || (b == 4 && 751 <= rtt < 1001) || (b == 5 && 1001 <= rtt)
  }

  /** The counters before and after a segment that starts below the acknowledgement; late says that something before it
      was sent after it. A new segment that is acknowledged beyond its end counts as cumulative, and one acknowledged to
      its end as no sample, as a clean sample in its bucket, or as ambiguous; an old one may be a duplicate. */
  ghost predicate Rises(v: Seg, a: Ack, late: bool, st: Stats, st': Stats) {
    var newly, end, rtt := v.acked == 0, a.ack == v.last + 1, a.now - v.time;
    var dup := !newly && end && (a.bsd ==> a.ack == a.winAck && a.dataLen == 0 && a.effWin == a.winLast && a.owin > 0);
    && st'.cumack == st.cumack + (if newly && !end then 1 else 0)
    && st'.nosample == st.nosample + (if newly && end && late then 1 else 0)
    && st'.count == st.count + (if newly && end && !late && v.retrans == 0 then 1 else 0)
    && st'.amback == st.amback + (if newly && end && !late && v.retrans != 0 then 1 else 0)
    && st'.dupack == st.dupack + (if dup then 1 else 0)
    && st'.triple == st.triple
                     + (if dup && (v.acked + 1) % WORD == 4 && (a.bsd || a.dataLen == 0 || a.dataAllowed) then 1 else 0)
    && |st'.buckets| == |st.buckets| == BUCKETS
    && (forall b :: 0 <= b < BUCKETS ==>
          st'.buckets[b]
          == st.buckets[b] + if newly && end && !late && v.retrans == 0 && InBucket(b, rtt) then 1 else 0)
  }

  /** The reply for that segment, or what it was before. */
  function Replied(v: Seg, a: Ack, late: bool, before: Reply): Reply {
    var end := a.ack == v.last + 1;
    if v.acked == 0 then
      if !end then Cumul else if late then NoSample else if v.retrans == 0 then Normal else Ambig
    else if end && (a.bsd ==> a.ack == a.winAck && a.dataLen == 0 && a.effWin == a.winLast && a.owin > 0) then
      if (v.acked + 1) % WORD == 4 && (a.bsd || a.dataLen == 0 || a.dataAllowed) then Triple else Cumul
    else before
  }

  /** Which counter rises for one segment, what is replied, and what the segment's count becomes. */
  lemma {:induction false} OneExactly(v: Seg, a: Ack, sc: Scan)
    requires |sc.stats.buckets| == BUCKETS
    ensures var (v', sc'), late := One(v, a, sc), sc.lastXmit > v.time;
            && Rises(v, a, late, sc.stats, sc'.stats) && sc'.reply == Replied(v, a, late, sc.reply)
            && (v.acked == 0 ==> v'.acked == 1 && sc'.changed)
            && (v.acked > 0 ==>
                  && sc'.changed == sc.changed
                  && v'.acked == if sc'.stats.dupack > sc.stats.dupack then (v.acked + 1) % WORD
                                 else if a.bsd then 1 else v.acked)
            && v' == v.(acked := v'.acked)
            && sc.lastXmit <= sc'.lastXmit && v.time <= sc'.lastXmit
            && (sc'.lastXmit == sc.lastXmit || sc'.lastXmit == v.time)
  {
  }

  /** One of the first e segments was sent after time t. */
  ghost predicate LaterIn(vs: seq<Seg>, e: nat, t: int) {
    exists j :: 0 <= j < e && j < |vs| && vs[j].time > t
  }

  lemma {:induction false} LaterCons(vs: seq<Seg>, e: nat, t: int)
    requires 0 < e <= |vs|
    ensures LaterIn(vs, e, t) <==> vs[0].time > t || LaterIn(vs[1..], e - 1, t)
  {
    if j :| 0 <= j < e - 1 && vs[1..][j].time > t { assert vs[j + 1].time > t; }
    if j :| 0 < j < e && vs[j].time > t { assert vs[1..][j - 1].time > t; }
  }

  /** A segment that is not acknowledged to its end. */
  lemma {:induction false} OnePlain(v: Seg, a: Ack, sc: Scan)
    requires |sc.stats.buckets| == BUCKETS && v.last + 1 != a.ack
    ensures var sc', n := One(v, a, sc).1, if v.acked == 0 then 1 else 0;
            && sc'.stats == sc.stats.(cumack := sc.stats.cumack + n)
            && sc'.reply == (if n > 0 then Cumul else sc.reply) && sc'.lastXmit == Newest(sc.lastXmit, v.time)
  {
  }

  /** Without a segment that is acknowledged to its end, only the cumulative counter rises. */
  lemma {:induction false} ScanPlain(vs: seq<Seg>, a: Ack, sc: Scan, lo: nat, hi: nat)
    requires |sc.stats.buckets| == BUCKETS && Sorted(vs, lo, hi)
    requires forall i :: 0 <= i < |vs| ==> vs[i].last + 1 != a.ack
    ensures var sc', n := Scanned(vs, a, sc).1, Unacked(vs, a.ack);
            sc'.stats == sc.stats.(cumack := sc.stats.cumack + n) && sc'.reply == if n > 0 then Cumul else sc.reply
  {
    hide One, Sorted;
    if vs == [] {
    } else if a.ack <= vs[0].first {
      NoneBelow(vs, a.ack, lo, hi);
    } else {
      SortedTail(vs, lo, hi);
      OnePlain(vs[0], a, sc);
      ScanPlain(vs[1..], a, One(vs[0], a, sc).1, vs[0].last + 1, hi);
    }
  }

  /** The scan up to the segment e that is acknowledged to its end, which is the last it visits. */
  lemma {:induction false} ScanEnd(vs: seq<Seg>, a: Ack, sc: Scan, lo: nat, hi: nat, e: nat)
    requires |sc.stats.buckets| == BUCKETS && Sorted(vs, lo, hi) && e < |vs| && vs[e].last + 1 == a.ack
    ensures var sc', n, v := Scanned(vs, a, sc).1, Unacked(vs[..e], a.ack), vs[e];
            var late := sc.lastXmit > v.time || LaterIn(vs, e, v.time);
            && Rises(v, a, late, sc.stats.(cumack := sc.stats.cumack + n), sc'.stats)
            && sc'.reply == Replied(v, a, late, if n > 0 then Cumul else sc.reply)
  {
    hide One, Rises, Replied, LaterIn;
    var v := vs[e];
    assert vs[0].first < a.ack && (e > 0 ==> vs[0].last < v.first) && (|vs| > 1 ==> vs[0].last < vs[1].first);
    SortedTail(vs, lo, hi);
    hide Sorted;
    if e == 0 {
      OneExactly(v, a, sc);
      NoneLater(vs, v.time);
      assert Unacked(vs[..0], a.ack) == 0;
    } else {
      OnePlain(vs[0], a, sc);
      LaterCons(vs, e, v.time);
      assert vs[1..][e - 1] == v && vs[..e][1..] == vs[1..][..e - 1];
      ScanEnd(vs[1..], a, One(vs[0], a, sc).1, vs[0].last + 1, hi, e - 1);
    }
  }

  lemma {:induction false} NoneLater(vs: seq<Seg>, t: int)
    ensures !LaterIn(vs, 0, t)
  {
  }

  /** The newest transmission among the segments that the acknowledgement newly covers in the previous quadrant. */
  lemma {:induction false} CumulatedNewest(vs: seq<Seg>, sc: Scan, t: int)
    ensures CumulatedAll(vs, sc).1.lastXmit > t <==>
            sc.lastXmit > t || exists j :: 0 <= j < |vs| && vs[j].acked == 0 && vs[j].time > t
  {
    if vs != [] {
      CumulatedNewest(vs[1..], Cumulated(vs[0], sc).1, t);
      if j :| 0 <= j < |vs[1..]| && vs[1..][j].acked == 0 && vs[1..][j].time > t {
        assert vs[j + 1].acked == 0 && vs[j + 1].time > t;
      }
      if j :| 0 < j < |vs| && vs[j].acked == 0 && vs[j].time > t {
        assert vs[1..][j - 1].acked == 0 && vs[1..][j - 1].time > t;
      }
    }
  }

  /** The whole acknowledgement, if it falls on no segment's end: every segment it newly covers counts as cumulative. */
  lemma {:induction false} AckedPlain(prev: seq<Seg>, cur: seq<Seg>, a: Ack, st: Stats,
                                      lo: nat, mid: nat, lo': nat, hi: nat)
    requires |st.buckets| == BUCKETS && Sorted(prev, lo, mid) && Sorted(cur, lo', hi)
    requires forall i :: 0 <= i < |cur| ==> cur[i].last + 1 != a.ack
    ensures var o, n := AckedIn(prev, cur, a, st), Unacked(cur, a.ack);
            && o.stats == st.(cumack := st.cumack + Unacked(prev, mid) + n)
            && o.reply == if n > 0 then Cumul else NoReply
  {
    hide Scanned, CumulatedAll;
    var sc := Scan(st, 0, false, NoReply);
    CumulatedCounted(prev, sc, mid);
    ScanPlain(cur, a, CumulatedAll(prev, sc).1.(changed := false), lo', hi);
  }

  /** The whole acknowledgement, if it falls on the end of segment e: the others it newly covers count as cumulative,
      and e is judged by whether anything before it was sent later; the reply is that for e. */
  lemma {:induction false} AckedEnd(prev: seq<Seg>, cur: seq<Seg>, a: Ack, st: Stats,
                                    lo: nat, mid: nat, lo': nat, hi: nat, e: nat)
    requires |st.buckets| == BUCKETS && Sorted(prev, lo, mid) && Sorted(cur, lo', hi)
    requires e < |cur| && cur[e].last + 1 == a.ack
    ensures var o, v, n := AckedIn(prev, cur, a, st), cur[e], Unacked(cur[..e], a.ack);
            var late := || v.time < 0 || LaterIn(cur, e, v.time)
                        || exists j :: 0 <= j < |prev| && prev[j].acked == 0 && prev[j].time > v.time;
            && Rises(v, a, late, st.(cumack := st.cumack + Unacked(prev, mid) + n), o.stats)
            && o.reply == Replied(v, a, late, if n > 0 then Cumul else NoReply)
  {
    hide Scanned, CumulatedAll, Rises, Replied, LaterIn;
    var sc := Scan(st, 0, false, NoReply);
    CumulatedCounted(prev, sc, mid);
    CumulatedNewest(prev, sc, cur[e].time);
    ScanEnd(cur, a, CumulatedAll(prev, sc).1.(changed := false), lo', hi, e);
  }

  /** What becomes of each segment of the previous quadrant before it is collapsed. */
  lemma {:induction false} CumulatedAt(vs: seq<Seg>, sc: Scan, i: nat)
    requires i < |vs|
    ensures CumulatedAll(vs, sc).0[i] == vs[i].(acked := if vs[i].acked == 0 then 1 else vs[i].acked)
  {
    if i > 0 { CumulatedAt(vs[1..], Cumulated(vs[0], sc).1, i - 1); }
  }

  /** And of each segment of the current one. */
  lemma {:induction false} ScannedAt(vs: seq<Seg>, a: Ack, sc: Scan, lo: nat, hi: nat, i: nat)
    requires |sc.stats.buckets| == BUCKETS && Sorted(vs, lo, hi) && i < |vs|
    ensures var v := vs[i];
            var dup := a.ack == v.last + 1
                       && (a.bsd ==> a.ack == a.winAck && a.dataLen == 0 && a.effWin == a.winLast && a.owin > 0);
            Scanned(vs, a, sc).0[i]
            == if a.ack <= v.first then v
               else if v.acked == 0 then v.(acked := 1)
               else if dup then v.(acked := (v.acked + 1) % 0x1_0000_0000)
               else if a.bsd then v.(acked := 1) else v
  {
    assert i > 0 ==> vs[0].first < vs[i].first;
    SortedTail(vs, lo, hi);
    hide Sorted;
    if i == 0 {
    } else if vs[0].first < a.ack {
      hide One;
      ScannedAt(vs[1..], a, One(vs[0], a, sc).1, vs[0].last + 1, hi, i - 1);
    }
  }

  /** A quadrant in which the acknowledgement newly covers a segment is collapsed, up to its first segment that is not
      acknowledged; in another no segments are joined. */
  lemma {:induction false} AckedCollapses(prev: seq<Seg>, cur: seq<Seg>, a: Ack, st: Stats,
                                          lo: nat, mid: nat, lo': nat, hi: nat)
    requires Tallied(st) && Sorted(prev, lo, mid) && Sorted(cur, lo', hi)
    ensures var o := AckedIn(prev, cur, a, st);
            && (if Unacked(prev, mid) > 0 then forall i :: 0 <= i < |o.prev| ==> !JoinsNext(o.prev, i)
                else |o.prev| == |prev|)
            && (if Unacked(cur, a.ack) > 0 then forall i :: 0 <= i < |o.cur| ==> !JoinsNext(o.cur, i)
                else |o.cur| == |cur|)
  {
    hide Scanned, CumulatedAll, Collapsed, JoinsNext;
    var sc := Scan(st, 0, false, NoReply);
    CumulatedCounted(prev, sc, mid);
    var p := CumulatedAll(prev, sc);
    ScanCounted(cur, a, p.1.(changed := false), lo', hi);
    CollapsedAll(p.0);
    CollapsedAll(Scanned(cur, a, p.1.(changed := false)).0);
  }

  // ----- which bytes are acknowledged -----

  lemma {:induction false} CumulatedBytes(vs: seq<Seg>, sc: Scan, lo: nat, hi: nat)
    requires Sorted(vs, lo, hi)
    ensures var ws := CumulatedAll(vs, sc).0;
            Sorted(ws, lo, hi) && Covered(ws) == Covered(vs) && Acked(ws) == Covered(vs)
  {
    hide Sorted, Bytes, Range;
    if vs == [] {
      NoBytes();
    } else {
      var v, rest := Cumulated(vs[0], sc).0, CumulatedAll(vs[1..], Cumulated(vs[0], sc).1).0;
      SortedTail(vs, lo, hi);
      CumulatedBytes(vs[1..], Cumulated(vs[0], sc).1, vs[0].last + 1, hi);
      BytesSplit(vs);
      BytesBoth(v, rest);
      SortedCons(v, rest, lo, hi);
    }
  }

  /** The 32-bit acknowledgement count of a segment runs over to zero. */
  predicate Wraps(v: Seg, a: Ack) {
    v.first < a.ack && v.acked > 0 && Duplicate(v, a) && (v.acked + 1) % WORD == 0
  }

  /** The bytes of the segments that start below b. */
  ghost function Below(vs: seq<Seg>, b: int): set<int> {
    if vs == [] then {} else (if vs[0].first < b then Range(vs[0].first, vs[0].last) else {}) + Below(vs[1..], b)
  }

  lemma {:induction false} NothingBelow(vs: seq<Seg>, b: int, lo: nat, hi: nat)
    requires Sorted(vs, lo, hi) && (vs != [] ==> b <= vs[0].first)
    ensures Below(vs, b) == {}
  {
    if vs != [] {
      SortedTail(vs, lo, hi);
      assert vs[1..] != [] ==> vs[1..][0].first >= vs[0].last + 1;
      NothingBelow(vs[1..], b, vs[0].last + 1, hi);
    }
  }

  /** Every segment that starts below the acknowledgement ends up acknowledged, and nothing else changes: unless a
      count runs over. */
  lemma {:induction false} ScanBytes(vs: seq<Seg>, a: Ack, sc: Scan, lo: nat, hi: nat)
    requires |sc.stats.buckets| == BUCKETS && Sorted(vs, lo, hi)
    ensures var ws := Scanned(vs, a, sc).0;
            && Sorted(ws, lo, hi) && Covered(ws) == Covered(vs)
            && ((forall i :: 0 <= i < |vs| ==> !Wraps(vs[i], a)) ==> Acked(ws) == Acked(vs) + Below(vs, a.ack))
  {
    hide Sorted, Bytes, Range, One;
    if vs == [] {
    } else if a.ack <= vs[0].first {
      NothingBelow(vs, a.ack, lo, hi);
    } else {
      var one := One(vs[0], a, sc);
      OneBytes(vs[0], a, sc);
      var rest := Scanned(vs[1..], a, one.1).0;
      SortedTail(vs, lo, hi);
      ScanBytes(vs[1..], a, one.1, vs[0].last + 1, hi);
      BytesSplit(vs);
      BytesBoth(one.0, rest);
      SortedCons(one.0, rest, lo, hi);
      assert forall i :: 0 <= i < |vs[1..]| ==> vs[1..][i] == vs[i + 1];
    }
  }

  lemma {:induction false} OneBytes(v: Seg, a: Ack, sc: Scan)
    requires |sc.stats.buckets| == BUCKETS && v.first < a.ack
    ensures var one := One(v, a, sc);
            && one.0.first == v.first && one.0.last == v.last && (one.0.acked > 0 <==> !Wraps(v, a))
            && |one.1.stats.buckets| == BUCKETS
  {
  }

  /** What happens to one segment of the current quadrant. */
  lemma {:induction false} ScanAt(vs: seq<Seg>, a: Ack, sc: Scan, lo: nat, hi: nat, i: nat)
    requires |sc.stats.buckets| == BUCKETS && Sorted(vs, lo, hi) && i < |vs|
    ensures var w := Scanned(vs, a, sc).0[i];
            && w.first == vs[i].first && w.last == vs[i].last
            && (w.acked > 0 <==> if vs[i].first < a.ack then !Wraps(vs[i], a) else vs[i].acked > 0)
  {
    hide One, Wraps;
    if vs[0].first < a.ack {
      OneBytes(vs[0], a, sc);
      if i > 0 { ScanAt(vs[1..], a, One(vs[0], a, sc).1, vs[0].last + 1, hi, i - 1); }
    }
  }

  /** No byte loses its acknowledgement if and only if no count runs over. */
  lemma {:induction false} NeverUnacked(vs: seq<Seg>, a: Ack, sc: Scan, lo: nat, hi: nat)
    requires |sc.stats.buckets| == BUCKETS && Sorted(vs, lo, hi)
    ensures Acked(vs) <= Acked(Scanned(vs, a, sc).0) <==> forall i :: 0 <= i < |vs| ==> !Wraps(vs[i], a)
  {
    hide Scanned, Bytes;
    ScanBytes(vs, a, sc, lo, hi);
    forall i | 0 <= i < |vs| && Wraps(vs[i], a) ensures vs[i].first in Acked(vs) - Acked(Scanned(vs, a, sc).0) {
      var ws, x := Scanned(vs, a, sc).0, vs[i].first;
      BytesIn(vs, false, x);
      BytesIn(ws, false, x);
      forall k | 0 <= k < |ws| ensures !(ws[k].first <= x <= ws[k].last && ws[k].acked > 0) {
        ScanAt(vs, a, sc, lo, hi, k);
      }
    }
  }

  /** The whole acknowledgement: every byte of the previous quadrant is acknowledged, and in the current one every
      byte of a segment that starts below it; no byte recorded is lost. */
  lemma {:induction false} AckBytes(prev: seq<Seg>, cur: seq<Seg>, a: Ack, st: Stats, lo: nat, mid: nat, lo': nat, hi: nat)
    requires |st.buckets| == BUCKETS && Sorted(prev, lo, mid) && Sorted(cur, lo', hi)
    ensures var o := AckedIn(prev, cur, a, st);
            && Sorted(o.prev, lo, mid) && Sorted(o.cur, lo', hi)
            && Covered(o.prev) == Covered(prev) && Covered(o.cur) == Covered(cur)
            && Acked(o.prev) == Covered(prev)
            && ((forall i :: 0 <= i < |cur| ==> !Wraps(cur[i], a)) ==> Acked(o.cur) == Acked(cur) + Below(cur, a.ack))
            && (Acked(cur) <= Acked(o.cur) <==> forall i :: 0 <= i < |cur| ==> !Wraps(cur[i], a))
  {
    hide Sorted, Bytes, Below, Wraps;
    var p := CumulatedAll(prev, Scan(st, 0, false, NoReply));
    var c := Scanned(cur, a, p.1.(changed := false));
    CumulatedBytes(prev, Scan(st, 0, false, NoReply), lo, mid);
    ScanBytes(cur, a, p.1.(changed := false), lo', hi);
    NeverUnacked(cur, a, p.1.(changed := false), lo', hi);
    CollapsedIfBytes(p.0, p.1.changed, lo, mid);
    CollapsedIfBytes(c.0, c.1.changed, lo', hi);
  }

  lemma {:induction false} CollapsedIfBytes(vs: seq<Seg>, changed: bool, lo: nat, hi: nat)
    requires Sorted(vs, lo, hi)
    ensures var ws := CollapsedIf(vs, changed);
            Sorted(ws, lo, hi) && Covered(ws) == Covered(vs) && Acked(ws) == Acked(vs)
  {
    CollapsedBytes(vs, true, lo, hi);
    CollapsedBytes(vs, false, lo, hi);
  }

  // ----- the same acknowledgement again and again -----

  /** What the same acknowledgement does when it comes n times. */
  ghost function AckedTimes(prev: seq<Seg>, cur: seq<Seg>, a: Ack, st: Stats, n: nat): (o: Outcome)
    requires |st.buckets| == BUCKETS
    ensures |o.stats.buckets| == BUCKETS
  {
    if n == 0 then Outcome(prev, cur, st, NoReply)
    else
      var o := AckedTimes(prev, cur, a, st, n - 1);
      AckedIn(o.prev, o.cur, a, o.stats)
  }

  ghost predicate AckedUpTo(vs: seq<Seg>, i: nat) {
    i < |vs| && forall j :: 0 <= j <= i ==> vs[j].acked > 0
  }

  /** The same segments: segment i with this count, those before it acknowledged, those behind it as they were. */
  ghost predicate Counts(vs: seq<Seg>, ws: seq<Seg>, i: nat, count: nat) {
    && i < |vs| == |ws| && ws[i] == vs[i].(acked := count)
    && (forall j :: 0 <= j < i ==> ws[j].acked > 0 && ws[j].first == vs[j].first && ws[j].last == vs[j].last)
    && (forall j :: i < j < |vs| ==> ws[j] == vs[j])
  }

  lemma {:induction false} ScanAgain(vs: seq<Seg>, a: Ack, sc: Scan, lo: nat, hi: nat, i: nat)
    requires |sc.stats.buckets| == BUCKETS && Sorted(vs, lo, hi) && AckedUpTo(vs, i) && Duplicate(vs[i], a)
    ensures Counts(vs, Scanned(vs, a, sc).0, i, (vs[i].acked + 1) % WORD)
    ensures Scanned(vs, a, sc).1.changed == sc.changed
  {
    hide One, Counts;
    OneAgain(vs[0], a, sc);
    SortedTail(vs, lo, hi);
    var one := One(vs[0], a, sc);
    var rest := Scanned(vs[1..], a, one.1);
    if i > 0 {
      assert vs[0].last < vs[i].first && vs[1..][i - 1] == vs[i];
      assert AckedUpTo(vs[1..], i - 1);
      ScanAgain(vs[1..], a, one.1, vs[0].last + 1, hi, i - 1);
    }
    CountsCons(vs, one.0, rest.0, i, (vs[i].acked + 1) % WORD);
  }

  lemma {:induction false} CountsCons(vs: seq<Seg>, w: Seg, ws: seq<Seg>, i: nat, count: nat)
    requires vs != [] && w == vs[0].(acked := w.acked)
    requires if i == 0 then ws == vs[1..] && w.acked == count else w.acked > 0 && Counts(vs[1..], ws, i - 1, count)
    ensures Counts(vs, [w] + ws, i, count)
  {
    forall j | 1 <= j < |vs| ensures ([w] + ws)[j] == ws[j - 1] && vs[1..][j - 1] == vs[j] {}
  }

  lemma {:induction false} OneAgain(v: Seg, a: Ack, sc: Scan)
    requires |sc.stats.buckets| == BUCKETS && v.acked > 0
    ensures var one := One(v, a, sc);
            && one.0 == v.(acked := one.0.acked) && one.1.changed == sc.changed && |one.1.stats.buckets| == BUCKETS
            && (if Duplicate(v, a) then one.0.acked == (v.acked + 1) % WORD else one.0.acked > 0)
  {
  }

  /** One duplicate, through the whole of the acknowledgement. */
  lemma {:induction false} AckAgain(o: Outcome, a: Ack, lo: nat, hi: nat, i: nat)
    requires |o.stats.buckets| == BUCKETS && Sorted(o.cur, lo, hi) && AckedUpTo(o.cur, i) && Duplicate(o.cur[i], a)
    ensures var ws := AckedIn(o.prev, o.cur, a, o.stats).cur;
            Counts(o.cur, ws, i, (o.cur[i].acked + 1) % WORD) && Sorted(ws, lo, hi)
  {
    hide Scanned, Duplicate;
    var sc := CumulatedAll(o.prev, Scan(o.stats, 0, false, NoReply)).1.(changed := false);
    ScanAgain(o.cur, a, sc, lo, hi, i);
    CountsSorted(o.cur, Scanned(o.cur, a, sc).0, i, (o.cur[i].acked + 1) % WORD, lo, hi);
  }

  lemma {:induction false} CountsSorted(vs: seq<Seg>, ws: seq<Seg>, i: nat, count: nat, lo: nat, hi: nat)
    requires Counts(vs, ws, i, count) && Sorted(vs, lo, hi)
    ensures Sorted(ws, lo, hi)
  {
    assert forall j :: 0 <= j < |vs| ==> ws[j].first == vs[j].first && ws[j].last == vs[j].last;
  }

  lemma {:induction false} CountsTwice(us: seq<Seg>, vs: seq<Seg>, ws: seq<Seg>, i: nat, m: nat, n: nat)
    requires Counts(us, vs, i, m) && Counts(vs, ws, i, n)
    ensures Counts(us, ws, i, n)
  {
  }

  /** The segment's first byte is acknowledged exactly if its count is not zero. */
  lemma {:induction false} CountsAcked(vs: seq<Seg>, ws: seq<Seg>, i: nat, count: nat, lo: nat, hi: nat)
    requires Counts(vs, ws, i, count) && Sorted(ws, lo, hi)
    ensures vs[i].first in Acked(ws) <==> count > 0
  {
    BytesIn(ws, false, vs[i].first);
    assert ws[i].first == vs[i].first;
    hide Bytes;
  }

  /** While the count does not run over, n duplicates of an acknowledgement raise it by n; a byte of the segment loses
      its acknowledgement exactly when it does. */
  lemma {:induction false} Duplicates(prev: seq<Seg>, cur: seq<Seg>, a: Ack, st: Stats, n: nat,
                                      lo: nat, hi: nat, i: nat)
    requires |st.buckets| == BUCKETS && Sorted(cur, lo, hi) && AckedUpTo(cur, i) && Duplicate(cur[i], a)
    requires cur[i].acked < WORD && cur[i].acked + n <= WORD
    ensures var ws := AckedTimes(prev, cur, a, st, n).cur;
            && Counts(cur, ws, i, (cur[i].acked + n) % WORD) && Sorted(ws, lo, hi)
            && (cur[i].first in Acked(ws) <==> cur[i].acked + n < WORD)
  {
    hide Bytes, AckedIn, Sorted;
    var ws := AckedTimes(prev, cur, a, st, n).cur;
    if n > 0 {
      var o := AckedTimes(prev, cur, a, st, n - 1);
      Duplicates(prev, cur, a, st, n - 1, lo, hi, i);
      AckAgain(o, a, lo, hi, i);
      CountsTwice(cur, o.cur, ws, i, (cur[i].acked + n - 1) % WORD, (cur[i].acked + n) % WORD);
    }
    CountsAcked(cur, ws, i, (cur[i].acked + n) % WORD, lo, hi);
  }

  /** So a segment acknowledged once has lost its acknowledgement after 2^32 - 1 duplicates. */
  lemma {:induction false} AckLost(prev: seq<Seg>, v: Seg, a: Ack, st: Stats)
    requires |st.buckets| == BUCKETS && v.first <= v.last && v.acked == 1 && Duplicate(v, a)
    ensures v.first in Acked([v]) && v.first !in Acked(AckedTimes(prev, [v], a, st, WORD - 1).cur)
  {
    hide AckedTimes, Bytes;
    SortedOne(v, 0, v.last + 1);
    BytesIn([v], false, v.first);
    assert [v][0].first <= v.first <= [v][0].last && [v][0].acked > 0;
    Duplicates(prev, [v], a, st, WORD - 1, 0, v.last + 1, 0);
  }

  // ----- the one-byte retransmit count -----

  /** The counters after a clean and after an ambiguous round-trip sample. */
  function Clean(st: Stats, rtt: int): Stats
    requires |st.buckets| == BUCKETS
  {
    st.(count := st.count + 1, buckets := st.buckets[Bucket(rtt) := st.buckets[Bucket(rtt)] + 1])
  }

  function Ambiguous(st: Stats): Stats { st.(amback := st.amback + 1) }

  /** A new segment is touched by any number of later ranges and then acknowledged to its end, with nothing sent after
      it: the sample counts as clean exactly when that number is a multiple of 256, and as ambiguous otherwise. */
  lemma {:induction false} SampleAfterResending(vs: seq<Seg>, i: nat, sent: seq<Sent>, a: Ack, sc: Scan,
                                                lo: nat, hi: nat)
    returns (w: Seg)
    requires Sorted(vs, lo, hi) && AllWithin(sent, lo, hi) && i < |vs| && vs[i].retrans == 0 && vs[i].acked == 0
    requires a.ack == vs[i].last + 1 && |sc.stats.buckets| == BUCKETS
    ensures w in AddedAll(vs, sent) && w.first == vs[i].first && w.last == vs[i].last
    ensures sc.lastXmit <= w.time ==>
              One(w, a, sc).1.stats == if Hits(vs[i], sent) % 256 == 0 then Clean(sc.stats, a.now - w.time)
                                       else Ambiguous(sc.stats)
  {
    hide AddedAll, Sorted, Hits;
    ResentCount(vs, i, sent, lo, hi);
    var ws, n := AddedAll(vs, sent), Hits(vs[i], sent) % 256;
    var j :| 0 <= j < |ws| && ws[j] == vs[i].(retrans := n, time := ws[j].time);
    w := ws[j];
  }

  /** The same range sent n times. */
  function Repeated(s: Sent, n: nat): seq<Sent> { seq(n, _ => s) }

  lemma {:induction false} RepeatedHits(v: Seg, time: int, n: nat)
    requires v.first <= v.last
    ensures Hits(v, Repeated(Sent(v.first, v.last, time), n)) == n
  {
    if n > 0 {
      var s := Sent(v.first, v.last, time);
      assert Repeated(s, n)[..n - 1] == Repeated(s, n - 1);
      RepeatedHits(v, time, n - 1);
    }
  }

  /** So a segment that was sent once and resent 256 times is taken for one that was never resent. */
  lemma {:induction false} CleanAfter256(v: Seg, time: int, a: Ack, sc: Scan) returns (w: Seg)
    requires v.first <= v.last && v.retrans == 0 && v.acked == 0 && a.ack == v.last + 1
    requires |sc.stats.buckets| == BUCKETS
    ensures w in AddedAll([v], Repeated(Sent(v.first, v.last, time), 256)) && w.first == v.first && w.last == v.last
    ensures sc.lastXmit <= w.time ==> One(w, a, sc).1.stats == Clean(sc.stats, a.now - w.time)
  {
    hide AddedAll, Hits;
    SortedOne(v, 0, v.last + 1);
    RepeatedHits(v, time, 256);
    w := SampleAfterResending([v], 0, Repeated(Sent(v.first, v.last, time), 256), a, sc, 0, v.last + 1);
  }
}
