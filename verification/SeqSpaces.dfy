/**
  The sequence space of one direction of a connection: a ring of four quadrant slots, of which the current one and its
  two neighbours are kept, and the entry points that record a transmission and an acknowledgement.
 */
module SeqSpaces {
  import opened Segments
  import opened Acks
  import opened Quadrants

  /** The segments in each slot; an empty slot has none. */
  type Slots = s: seq<seq<Seg>> | |s| == 4 witness [[], [], [], []]

  function Next(k: nat): nat { (k + 1) % 4 }

  function Opposite(k: nat): nat { (k + 2) % 4 }

  function Prev(k: nat): nat { (k + 3) % 4 }

  /** Moving the centre to slot k drops what the slot opposite holds. */
  function Recentred(c: Slots, centre: int, k: nat): Slots
    requires k < 4
  {
    if k == centre then c else c[Opposite(k) := []]
  }

  // ----- bytes of the whole space -----

  /** The len sequence numbers from s on, round the 32-bit space. */
  ghost function Positions(s: nat, len: nat): set<int> {
    if len == 0 then {} else Positions(s, len - 1) + {(s + len - 1) % WORD}
  }

  ghost predicate Placed(c: Slots) {
    forall k :: 0 <= k < 4 ==> Sorted(c[k], k * QUADSIZE, (k + 1) * QUADSIZE)
  }

  ghost function AllCovered(c: Slots): set<int> {
    Covered(c[0]) + Covered(c[1]) + Covered(c[2]) + Covered(c[3])
  }

  ghost function AllAcked(c: Slots): set<int> {
    Acked(c[0]) + Acked(c[1]) + Acked(c[2]) + Acked(c[3])
  }

  /** A byte is covered only in the slot of its quadrant. */
  lemma {:induction false} CoveredIn(c: Slots, k: nat, x: int)
    requires Placed(c) && k < 4 && k * QUADSIZE <= x < (k + 1) * QUADSIZE
    ensures x in AllCovered(c) <==> x in Covered(c[k])
  {
    hide Bytes, Sorted, Covered;
    forall j | 0 <= j < 4 && j != k ensures x !in Covered(c[j]) {
      BytesAbove(c[j], j * QUADSIZE, (j + 1) * QUADSIZE);
    }
  }

  /** Adding a range to its slot adds it to the whole, and the overlap is with the whole. */
  lemma {:induction false} AddedToSlot(c: Slots, k: nat, start: nat, len: nat, now: int)
    requires Placed(c) && k < 4 && len > 0 && k * QUADSIZE <= start && start + len <= (k + 1) * QUADSIZE
    ensures var c' := c[k := Added(c[k], start, start + len - 1, false, now)];
            && Placed(c') && AllCovered(c') == AllCovered(c) + Range(start, start + len - 1)
            && AllAcked(c') == AllAcked(c)
            && Overlap(c[k], start, start + len - 1) == |AllCovered(c) * Range(start, start + len - 1)|
  {
    hide Added, Overlap, Bytes, Sorted, Range, Covered, Acked;
    var lo, hi, last := k * QUADSIZE, (k + 1) * QUADSIZE, start + len - 1;
    AddedSorted(c[k], start, last, false, now, lo, hi);
    AddedBytes(c[k], start, last, false, now, lo, hi);
    OverlapExact(c[k], start, last, lo, hi);
    var r := Range(start, last);
    assert AllCovered(c) * r == Covered(c[k]) * r by {
      forall x | x in r ensures x in AllCovered(c) <==> x in Covered(c[k]) { CoveredIn(c, k, x); }
    }
  }

  lemma {:induction false} PositionsPlain(s: nat, len: nat)
    requires s + len <= WORD
    ensures Positions(s, len) == Range(s, s + len - 1)
  {
    if len > 0 {
      PositionsPlain(s, len - 1);
      assert Range(s, s + len - 1) == Range(s, s + len - 2) + {s + len - 1};
    }
  }

  lemma {:induction false} ModShift(x: nat, y: nat)
    ensures (x % WORD + y) % WORD == (x + y) % WORD
  {
  }

  lemma {:induction false} PositionsSplit(s: nat, a: nat, b: nat)
    ensures Positions(s, a + b) == Positions(s, a) + Positions((s + a) % WORD, b)
  {
    if b > 0 {
      PositionsSplit(s, a, b - 1);
      ModShift(s + a, b - 1);
      PositionsMore(s, a + b);
      PositionsMore((s + a) % WORD, b);
      hide Positions;
    } else {
      assert Positions((s + a) % WORD, 0) == {};
    }
  }

  lemma {:induction false} PositionsMore(s: nat, len: nat)
    requires len > 0
    ensures Positions(s, len) == Positions(s, len - 1) + {(s + len - 1) % WORD}
  {
  }

  /** A range in two pieces, the second from the start of the next quadrant: the overlaps add up. */
  lemma {:induction false} AddedTwice(c: Slots, k: nat, s: nat, len1: nat, j: nat, s2: nat, len2: nat, now: int)
    requires Placed(c) && k < 4 && k * QUADSIZE <= s && len1 > 0 && s + len1 == (k + 1) * QUADSIZE
    requires j < 4 && j != k && s2 == j * QUADSIZE == (s + len1) % WORD && 0 < len2 <= QUADSIZE
    ensures var c1 := c[k := Added(c[k], s, s + len1 - 1, false, now)];
            var c2 := c1[j := Added(c1[j], s2, s2 + len2 - 1, false, now)];
            && Placed(c2) && AllCovered(c2) == AllCovered(c) + Positions(s, len1 + len2) && AllAcked(c2) == AllAcked(c)
            && Overlap(c[k], s, s + len1 - 1) + Overlap(c1[j], s2, s2 + len2 - 1)
               == |AllCovered(c) * Positions(s, len1 + len2)|
  {
    hide Added, Overlap, Range, AllCovered, AllAcked, Placed, Positions;
    var c1 := c[k := Added(c[k], s, s + len1 - 1, false, now)];
    AddedToSlot(c, k, s, len1, now);
    AddedToSlot(c1, j, s2, len2, now);
    PositionsSplit(s, len1, len2);
    PositionsPlain(s, len1);
    PositionsPlain(s2, len2);
    OverlapTwo(AllCovered(c), Range(s, s + len1 - 1), Range(s2, s2 + len2 - 1));
  }

  lemma {:induction false} OverlapTwo(a: set<int>, r: set<int>, t: set<int>)
    requires r !! t
    ensures |a * r| + |(a + r) * t| == |a * (r + t)|
  {
    assert (a + r) * t == a * t && a * (r + t) == a * r + a * t;
    DisjointSizes(a * r, a * t);
  }

  /** A range that leaves its quadrant ends in the next one. */
  lemma {:induction false} NextPiece(s: nat, len: nat)
    requires s < WORD && len > 0 && s % QUADSIZE + len <= 2 * QUADSIZE
    requires (s + len - 1) % WORD / QUADSIZE != s / QUADSIZE
    ensures var k, last := s / QUADSIZE, (s + len - 1) % WORD;
            && last / QUADSIZE == Next(k) && Next(k) * QUADSIZE == (k + 1) * QUADSIZE % WORD
            && 0 < len - ((k + 1) * QUADSIZE - s) <= QUADSIZE
            && Next(k) * QUADSIZE + (len - ((k + 1) * QUADSIZE - s)) - 1 == last
  {
  }

  /** Whether a range is out of order in a quadrant it reaches. */
  predicate OutOfOrderIn(c: Slots, s: nat, len: nat)
    requires s < WORD && len > 0
  {
    var k, last := s / QUADSIZE, (s + len - 1) % WORD;
    if last / QUADSIZE != k
    then OutOfOrder(c[k], s, (k + 1) * QUADSIZE - 1)
         || OutOfOrder(c[last / QUADSIZE], last / QUADSIZE * QUADSIZE, last)
    else s <= last && OutOfOrder(c[k], s, last)
  }

  /** The flag is about the gaps of the quadrant in which the range starts and, if it goes on, of the next one. */
  lemma {:induction false} OutOfOrderParts(c: Slots, s: nat, len: nat)
    requires Placed(c) && s < WORD && len > 0 && s % QUADSIZE + len <= 2 * QUADSIZE
    ensures var k, end := s / QUADSIZE, (s / QUADSIZE + 1) * QUADSIZE;
            OutOfOrderIn(c, s, len) <==>
              || SomeGap(c[k], s, (if s + len < end then s + len else end) - 1)
              || (s + len > end && SomeGap(c[Next(k)], Next(k) * QUADSIZE, Next(k) * QUADSIZE + (s + len - end) - 1))
  {
    hide SomeGap, OutOfOrder;
    var k, last := s / QUADSIZE, (s + len - 1) % WORD;
    var end := (k + 1) * QUADSIZE;
    if last / QUADSIZE != k {
      NextPiece(s, len);
      OutOfOrderExact(c[k], s, end - 1, k * QUADSIZE, end);
      OutOfOrderExact(c[Next(k)], Next(k) * QUADSIZE, last, Next(k) * QUADSIZE, (Next(k) + 1) * QUADSIZE);
    } else {
      OutOfOrderExact(c[k], s, last, k * QUADSIZE, end);
    }
  }

  /** An acknowledgement keeps every recorded byte; it acknowledges the whole previous quadrant, and of its own one
      every segment that starts below it; and it counts every segment it newly acknowledges once. */
  lemma {:induction false} AckSpace(c: Slots, k: nat, p: nat, a: Ack, st: Stats)
    requires Placed(c) && k < 4 && p == Prev(k) && Tallied(st)
    ensures var o := AckedIn(c[p], c[k], a, st);
            var c' := c[p := o.prev][k := o.cur];
            && Placed(c') && AllCovered(c') == AllCovered(c)
            && Covered(c[p]) <= AllAcked(c')
            && ((forall i :: 0 <= i < |c[k]| ==> !Wraps(c[k][i], a)) ==>
                  AllAcked(c') == AllAcked(c) + Covered(c[p]) + Below(c[k], a.ack))
            && Tallied(o.stats) && Grown(st, o.stats)
            && Total(o.stats) == Total(st) + Unacked(c[p], (p + 1) * QUADSIZE) + Unacked(c[k], a.ack)
  {
    hide AckedIn, Covered, Acked, Sorted, Below, Unacked, Total, Tallied, Grown, Wraps;
    assert Sorted(c[p], p * QUADSIZE, (p + 1) * QUADSIZE) && Sorted(c[k], k * QUADSIZE, (k + 1) * QUADSIZE);
    TalliedBuckets(st);
    AckBytes(c[p], c[k], a, st, p * QUADSIZE, (p + 1) * QUADSIZE, k * QUADSIZE, (k + 1) * QUADSIZE);
    AckCounted(c[p], c[k], a, st, p * QUADSIZE, (p + 1) * QUADSIZE, k * QUADSIZE, (k + 1) * QUADSIZE);
    AckedCovered(c[p]);
  }

  lemma {:induction false} TalliedBuckets(st: Stats)
    requires Tallied(st)
    ensures |st.buckets| == BUCKETS
  {
  }

  lemma {:induction false} AckedCovered(vs: seq<Seg>)
    ensures Acked(vs) <= Covered(vs)
  {
    if vs != [] {
      AckedCovered(vs[1..]);
      BytesSplit(vs);
    }
  }

  // ----- runs -----

  /** What a connection sees: a range sent, or an acknowledgement. */
  datatype Traffic = Sends(s: nat, len: nat, now: int) | Acknowledges(a: Ack)

  /** A range may reach into the next quadrant, but no further. */
  predicate Legal(e: Traffic) {
    match e
    case Sends(s, len, _) => s < WORD && len > 0 && s % QUADSIZE + len <= 2 * QUADSIZE
    case Acknowledges(a) => a.ack < WORD
  }

  function SlotOf(e: Traffic): (k: nat)
    requires Legal(e)
    ensures k < 4
  {
    if e.Sends? then e.s / QUADSIZE else e.a.ack / QUADSIZE
  }

  ghost function BytesOf(e: Traffic): set<int> {
    if e.Sends? then Positions(e.s, e.len) else {}
  }

  ghost predicate AllLegal(es: seq<Traffic>) { forall i :: 0 <= i < |es| ==> Legal(es[i]) }

  /** The centre before event i. */
  function CentreAt(centre: int, es: seq<Traffic>, i: nat): int
    requires i <= |es| && (i > 0 ==> Legal(es[i - 1]))
  {
    if i == 0 then centre else SlotOf(es[i - 1])
  }

  /** What is kept when event i arrives. */
  ghost function Kept(run: seq<Slots>, centre: int, es: seq<Traffic>, i: nat): Slots
    requires AllLegal(es) && i < |es| && |run| == |es| + 1
  {
    Recentred(run[i], CentreAt(centre, es, i), SlotOf(es[i]))
  }

  /** Event i keeps what recentring leaves, and records its bytes. */
  ghost predicate Follows(run: seq<Slots>, centre: int, es: seq<Traffic>, i: nat)
    requires AllLegal(es) && i < |es| && |run| == |es| + 1
  {
    AllCovered(run[i + 1]) == AllCovered(Kept(run, centre, es, i)) + BytesOf(es[i])
  }

  ghost predicate Trace(run: seq<Slots>, centre: int, es: seq<Traffic>) {
    && AllLegal(es) && |run| == |es| + 1
    && (forall i :: 0 <= i <= |es| ==> Placed(run[i]))
    && (forall i :: 0 <= i < |es| ==> Follows(run, centre, es, i))
  }

  /** Bytes that the first n events sent and that were not recorded when they were sent. */
  ghost function NewOnes(run: seq<Slots>, centre: int, es: seq<Traffic>, n: nat): nat
    requires AllLegal(es) && n <= |es| && |run| == |es| + 1
  {
    if n == 0 then 0
    else NewOnes(run, centre, es, n - 1) + |BytesOf(es[n - 1]) - AllCovered(Kept(run, centre, es, n - 1))|
  }

  /** Bytes recorded that recentring has dropped in the first n events. */
  ghost function Dropped(run: seq<Slots>, centre: int, es: seq<Traffic>, n: nat): nat
    requires AllLegal(es) && n <= |es| && |run| == |es| + 1
  {
    if n == 0 then 0
    else Dropped(run, centre, es, n - 1) + |AllCovered(run[n - 1]) - AllCovered(Kept(run, centre, es, n - 1))|
  }

  /** Dropping a slot drops exactly the bytes of its quadrant. */
  lemma {:induction false} DroppedSlot(c: Slots, centre: int, k: nat)
    requires Placed(c) && k < 4
    ensures Placed(Recentred(c, centre, k)) && AllCovered(Recentred(c, centre, k)) <= AllCovered(c)
    ensures AllCovered(c) - AllCovered(Recentred(c, centre, k)) == if k == centre then {} else Covered(c[Opposite(k)])
  {
    hide Bytes;
    NoBytes();
    var o := Opposite(k);
    assert Sorted([], o * QUADSIZE, (o + 1) * QUADSIZE);
    hide Sorted, Covered;
    forall j: nat | j < 4 && j != o ensures Covered(c[j]) !! Covered(c[o]) { SlotsApart(c, j, o); }
  }

  lemma {:induction false} SlotsApart(c: Slots, j: nat, k: nat)
    requires Placed(c) && j < 4 && k < 4 && j != k
    ensures Covered(c[j]) !! Covered(c[k])
  {
    hide Sorted, Covered;
    assert Sorted(c[j], j * QUADSIZE, (j + 1) * QUADSIZE) && Sorted(c[k], k * QUADSIZE, (k + 1) * QUADSIZE);
    BytesAbove(c[j], j * QUADSIZE, (j + 1) * QUADSIZE);
    BytesAbove(c[k], k * QUADSIZE, (k + 1) * QUADSIZE);
    forall x | x in Covered(c[j]) ensures x !in Covered(c[k]) {}
  }

  /** Conservation: over every run, the bytes that were new when they were sent are those recorded at the end, less
      those recorded at the start, plus those dropped by recentring. */
  lemma {:induction false} Conserved(run: seq<Slots>, centre: int, es: seq<Traffic>, n: nat)
    requires Trace(run, centre, es) && n <= |es|
    ensures NewOnes(run, centre, es, n) + |AllCovered(run[0])|
            == |AllCovered(run[n])| + Dropped(run, centre, es, n)
  {
    hide AllCovered, Recentred, Placed, BytesOf;
    if n > 0 {
      Conserved(run, centre, es, n - 1);
      var before, kept, sent := AllCovered(run[n - 1]), AllCovered(Kept(run, centre, es, n - 1)), BytesOf(es[n - 1]);
      assert Placed(run[n - 1]);
      assert Follows(run, centre, es, n - 1);
      DroppedSlot(run[n - 1], CentreAt(centre, es, n - 1), SlotOf(es[n - 1]));
      Balance(before, kept, sent);
    }
  }

  lemma {:induction false} Balance(before: set<int>, kept: set<int>, sent: set<int>)
    requires kept <= before
    ensures |sent - kept| + |before| == |kept + sent| + |before - kept|
  {
    DisjointSizes(kept, sent - kept);
    assert kept + (sent - kept) == kept + sent;
    DisjointSizes(kept, before - kept);
    assert kept + (before - kept) == before;
  }

  /** All bytes that the first n events sent. */
  ghost function AllSent(es: seq<Traffic>, n: nat): set<int>
    requires n <= |es|
  {
    if n == 0 then {} else AllSent(es, n - 1) + BytesOf(es[n - 1])
  }

  /** From an empty space, as long as recentring drops nothing, the new bytes are the distinct bytes sent. */
  lemma {:induction false} DistinctSent(run: seq<Slots>, centre: int, es: seq<Traffic>, n: nat)
    requires Trace(run, centre, es) && n <= |es| && AllCovered(run[0]) == {} && Dropped(run, centre, es, n) == 0
    ensures AllCovered(run[n]) == AllSent(es, n) && NewOnes(run, centre, es, n) == |AllSent(es, n)|
  {
    hide AllCovered, Recentred, Placed, BytesOf;
    Conserved(run, centre, es, n);
    if n > 0 {
      DistinctSent(run, centre, es, n - 1);
      var before, kept := AllCovered(run[n - 1]), AllCovered(Kept(run, centre, es, n - 1));
      assert Placed(run[n - 1]);
      assert Follows(run, centre, es, n - 1);
      DroppedSlot(run[n - 1], CentreAt(centre, es, n - 1), SlotOf(es[n - 1]));
      assert before - kept == {};
      assert before == kept;
    }
  }

  /** A range as long as it says: no sequence number occurs twice in it. */
  lemma {:induction false} PositionsSize(s: nat, len: nat)
    requires len <= WORD
    ensures |Positions(s, len)| == len
  {
    if len > 0 {
      PositionsSize(s, len - 1);
      NextPosition(s, len - 1, len - 1);
    }
  }

  lemma {:induction false} NextPosition(s: nat, len: nat, m: nat)
    requires len <= m < WORD
    ensures (s + m) % WORD !in Positions(s, len)
  {
    if len > 0 {
      NextPosition(s, len - 1, m);
      ModApart(s + len - 1, m - (len - 1));
    }
  }

  lemma {:induction false} ModApart(x: nat, d: nat)
    requires 0 < d < WORD
    ensures x % WORD != (x + d) % WORD
  {
  }

  lemma {:induction false} DifferenceSize(a: set<int>, b: set<int>)
    ensures |a - b| + |b * a| == |a|
  {
    DisjointSizes(a - b, b * a);
    assert (a - b) + (b * a) == a;
  }

  lemma {:induction false} NewOnesMore(run: seq<Slots>, centre: int, es: seq<Traffic>, c: Slots, e: Traffic, n: nat)
    requires AllLegal(es) && Legal(e) && n <= |es| && |run| == |es| + 1
    ensures AllLegal(es + [e]) && NewOnes(run + [c], centre, es + [e], n) == NewOnes(run, centre, es, n)
  {
    hide AllCovered, Recentred, BytesOf;
    if n > 0 { NewOnesMore(run, centre, es, c, e, n - 1); }
  }

  /** One more event. */
  lemma {:induction false} TraceMore(run: seq<Slots>, centre: int, es: seq<Traffic>, i: nat, c: Slots)
    requires AllLegal(es) && i < |es| && Trace(run, centre, es[..i]) && Placed(c)
    requires var kept := Recentred(run[i], CentreAt(centre, es, i), SlotOf(es[i]));
             AllCovered(c) == AllCovered(kept) + BytesOf(es[i])
    ensures Trace(run + [c], centre, es[..i + 1])
    ensures NewOnes(run + [c], centre, es[..i + 1], i + 1) == NewOnes(run, centre, es[..i], i)
            + |BytesOf(es[i]) - AllCovered(Recentred(run[i], CentreAt(centre, es, i), SlotOf(es[i])))|
  {
    hide AllCovered, Recentred, Placed, BytesOf;
    assert es[..i + 1] == es[..i] + [es[i]];
    NewOnesMore(run, centre, es[..i], c, es[i], i);
    var run', es' := run + [c], es[..i + 1];
    forall j | 0 <= j < i + 1 ensures Follows(run', centre, es', j) {
      if j < i { assert Follows(run, centre, es[..i], j); }
    }
  }

  class Tcb {
    const pquad: array<Quadrant?>
    var stats: Stats
    ghost var centre: int                 // the slot last asked for, -1 at first
    ghost var slots: Slots
    ghost var quads: set<Quadrant>
    ghost var nodes: set<Segment>

    /** Slot k is empty, or has a well-formed quadrant. */
    ghost predicate Holds(k: nat)
      requires k < 4 && k < pquad.Length
      reads this`slots, this`quads, this`nodes, pquad, quads`head, quads`tail, quads`segs, quads`repr, nodes
    {
      if pquad[k] == null then slots[k] == []
      else
        && pquad[k] in quads && pquad[k].repr <= nodes && pquad[k].Valid(k)
        && slots[k] == pquad[k].Vals()
    }

    /** Exactly the centre and its neighbours are there, and only the centre is linked to both sides. */
    ghost predicate Ring()
      reads this`centre, this`quads, pquad, quads`next, quads`prev
    {
      && pquad.Length == 4 && -1 <= centre < 4
      && (centre == -1 ==> forall k :: 0 <= k < 4 ==> pquad[k] == null)
      && (centre >= 0 ==>
            && pquad[Opposite(centre)] == null
            && pquad[centre] != null && pquad[Next(centre)] != null && pquad[Prev(centre)] != null
            && pquad[centre] in quads && pquad[Next(centre)] in quads && pquad[Prev(centre)] in quads
            && pquad[centre].next == pquad[Next(centre)] && pquad[centre].prev == pquad[Prev(centre)]
            && pquad[Next(centre)].prev == pquad[centre] && pquad[Next(centre)].next == null
            && pquad[Prev(centre)].next == pquad[centre] && pquad[Prev(centre)].prev == null)
    }

    ghost predicate Apart()
      requires pquad.Length == 4
      reads this`quads, pquad, quads`repr
    {
      forall j, k :: 0 <= j < k < 4 && pquad[j] != null && pquad[k] != null && pquad[j] in quads && pquad[k] in quads
        ==> pquad[j] != pquad[k] && pquad[j].repr !! pquad[k].repr
    }

    ghost predicate Sound()
      reads this`slots, this`quads, this`nodes, pquad, quads`head, quads`tail, quads`segs, quads`repr, nodes
    {
      pquad.Length == 4 && Apart() && forall k :: 0 <= k < 4 ==> Holds(k)
    }

    ghost predicate Valid()
      reads this`stats, this`centre, this`slots, this`quads, this`nodes, pquad, quads, nodes
    {
      Ring() && Sound() && Tallied(stats)
    }

    lemma {:induction false} SlotsPlaced()
      requires Sound()
      ensures Placed(slots)
    {
      forall k | 0 <= k < 4 ensures Sorted(slots[k], k * QUADSIZE, (k + 1) * QUADSIZE) {
        assert Holds(k);
      }
    }

    lemma {:induction false} Different(j: nat, k: nat)
      requires Sound() && j < 4 && k < 4 && j != k && pquad[j] != null && pquad[k] != null
      ensures pquad[j] != pquad[k] && pquad[j] in quads && pquad[k] in quads
      ensures pquad[j].repr !! pquad[k].repr
    {
      assert Holds(j) && Holds(k);
    }

    constructor ()
      ensures Valid() && fresh(pquad) && fresh(quads) && fresh(nodes)
      ensures centre == -1 && slots == [[], [], [], []]
      ensures stats == Stats(0, 0, 0, 0, 0, 0, [0, 0, 0, 0, 0, 0])
    {
      pquad := new Quadrant?[4](_ => null);
      stats := Stats(0, 0, 0, 0, 0, 0, [0, 0, 0, 0, 0, 0]);
      centre, slots, quads, nodes := -1, [[], [], [], []], {}, {};
    }

    method Create(k: nat)
      requires k < 4 && Sound() && pquad[k] == null
      modifies this`quads, pquad
      ensures Sound() && fresh(quads - old(quads)) && old(quads) <= quads
      ensures pquad[k] != null && forall j :: 0 <= j < 4 && j != k ==> pquad[j] == old(pquad[j])
    {
      hide Quadrant.Valid, Quadrant.Vals;
      var q := new Quadrant();
      assert Holds(k);
      pquad[k] := q;
      quads := quads + {q};
      assert Apart();
      hide Apart;
      forall j | 0 <= j < 4 ensures Holds(j) {
        assert old(Holds(j));
      }
    }

    /** Makes sure that slot k has a quadrant. */
    method Ensure(k: nat)
      requires k < pquad.Length == 4 && Sound()
      modifies this`quads, pquad
      ensures Sound() && fresh(quads - old(quads)) && old(quads) <= quads
      ensures pquad[k] != null && (old(pquad[k]) != null ==> pquad[k] == old(pquad[k]))
      ensures forall j :: 0 <= j < 4 && j != k ==> pquad[j] == old(pquad[j])
    {
      hide Sound;
      if pquad[k] == null {
        Create(k);
      }
    }

    /** Drops the quadrant of slot k, with its segments. */
    method Drop(k: nat)
      requires k < 4 && Sound()
      modifies this`slots, pquad
      ensures Sound() && slots == old(slots)[k := []] && pquad[k] == null
      ensures forall j :: 0 <= j < 4 && j != k ==> pquad[j] == old(pquad[j])
    {
      hide Quadrant.Valid, Quadrant.Vals;
      if pquad[k] != null {
        pquad[k] := null;
      }
      slots := slots[k := []];
      forall j | 0 <= j < 4 ensures Holds(j) {
        assert old(Holds(j));
      }
    }

    /** Links the three quadrants around slot k. */
    method Link(k: nat)
      requires k < pquad.Length == 4 && Sound() && Tallied(stats) && pquad[Opposite(k)] == null
      requires pquad[k] != null && pquad[Next(k)] != null && pquad[Prev(k)] != null
      modifies this`centre, quads`next, quads`prev
      ensures Valid() && centre == k
    {
      hide Sound;
      var next, prev := (k + 1) % 4, (k + 3) % 4;
      Different(k, next);
      Different(k, prev);
      Different(next, prev);
      pquad[k].prev := pquad[prev];
      pquad[k].next := pquad[next];
      pquad[next].prev := pquad[k];
      pquad[prev].next := pquad[k];
      pquad[next].next := null;
      pquad[prev].prev := null;
      centre := k;
    }

    /** whichquad. */
    method WhichQuad(s: nat) returns (q: Quadrant)
      requires Valid() && s < WORD
      modifies this`centre, this`slots, this`quads, pquad, quads`next, quads`prev
      ensures Valid() && fresh(quads - old(quads)) && centre == s / QUADSIZE && q == pquad[centre]
      ensures slots == Recentred(old(slots), old(centre), s / QUADSIZE)
    {
      hide Sound;
      var k := s / QUADSIZE;
      if pquad[k] != null && pquad[k].next != null && pquad[k].prev != null {
        q := pquad[k];
        return;
      }
      Ensure(k);
      Ensure((k + 1) % 4);
      Ensure((k + 3) % 4);
      Drop((k + 2) % 4);
      Link(k);
      q := pquad[k];
    }

    /** Adds a range to the quadrant of slot k. */
    method AddAt(k: nat, start: nat, len: nat, now: int) returns (rexlen: nat, out: bool)
      requires k < pquad.Length == 4 && Valid() && pquad[k] != null
      requires len > 0 && k * QUADSIZE <= start && start + len <= (k + 1) * QUADSIZE
      modifies this`slots, this`nodes, quads`head, quads`tail, quads`segs, quads`repr, nodes
      ensures Valid() && fresh(nodes - old(nodes))
      ensures slots == old(slots)[k := Added(old(slots)[k], start, start + len - 1, false, now)]
      ensures rexlen == Overlap(old(slots)[k], start, start + len - 1)
      ensures out == OutOfOrder(old(slots)[k], start, start + len - 1)
    {
      hide Added, Overlap, OutOfOrder, Quadrant.Valid, Quadrant.Vals;
      assert Holds(k);
      var q := pquad[k];
      forall j: nat | j < 4 && j != k && pquad[j] != null ensures pquad[j] != q && pquad[j].repr !! q.repr {
        Different(j, k);
      }
      rexlen, out := q.Add(k, start, len, now);
      nodes := nodes + q.repr;
      slots := slots[k := Added(slots[k], start, start + len - 1, false, now)];
      forall j | 0 <= j < 4 ensures Holds(j) {
        assert old(Holds(j));
      }
      assert Apart();
    }

    /** Acknowledges the previous quadrant, in slot k. */
    method AckPreviousAt(k: nat, sc0: Scan) returns (sc: Scan)
      requires k < pquad.Length == 4 && Valid() && pquad[k] != null
      modifies this`slots, quads`tail, quads`segs, quads`full, nodes
      ensures Valid() && sc == CumulatedAll(old(slots)[k], sc0).1
      ensures slots == old(slots)[k := CollapsedIf(CumulatedAll(old(slots)[k], sc0).0, sc.changed)]
    {
      hide CumulatedAll, CollapsedIf, Quadrant.Valid, Quadrant.Vals;
      assert Holds(k);
      var q := pquad[k];
      forall j: nat | j < 4 && j != k && pquad[j] != null ensures pquad[j] != q && pquad[j].repr !! q.repr {
        Different(j, k);
      }
      sc := q.AckPrevious(k, sc0);
      slots := slots[k := CollapsedIf(CumulatedAll(slots[k], sc0).0, sc.changed)];
      forall j | 0 <= j < 4 ensures Holds(j) {
        assert old(Holds(j));
      }
    }

    /** Acknowledges the current quadrant, in slot k. */
    method AckCurrentAt(k: nat, a: Ack, sc0: Scan) returns (sc: Scan)
      requires k < pquad.Length == 4 && Valid() && pquad[k] != null && |sc0.stats.buckets| == BUCKETS
      modifies this`slots, quads`tail, quads`segs, quads`full, nodes
      ensures Valid() && sc == Scanned(old(slots)[k], a, sc0).1
      ensures slots == old(slots)[k := CollapsedIf(Scanned(old(slots)[k], a, sc0).0, sc.changed)]
    {
      hide Scanned, CollapsedIf, Quadrant.Valid, Quadrant.Vals;
      assert Holds(k);
      var q := pquad[k];
      forall j: nat | j < 4 && j != k && pquad[j] != null ensures pquad[j] != q && pquad[j].repr !! q.repr {
        Different(j, k);
      }
      sc := q.AckCurrent(k, a, sc0);
      slots := slots[k := CollapsedIf(Scanned(slots[k], a, sc0).0, sc.changed)];
      forall j | 0 <= j < 4 ensures Holds(j) {
        assert old(Holds(j));
      }
    }

    /** Adds a range that fills slot k to its end and goes on in slot j. */
    method AddAcross(k: nat, s: nat, len1: nat, j: nat, len2: nat, now: int) returns (rexlen: nat, out: bool)
      requires k < pquad.Length == 4 && j < 4 && j != k && Valid() && pquad[k] != null && pquad[j] != null
      requires len1 > 0 && k * QUADSIZE <= s && s + len1 == (k + 1) * QUADSIZE
      requires j * QUADSIZE == (s + len1) % WORD && 0 < len2 <= QUADSIZE
      modifies this`slots, this`nodes, quads`head, quads`tail, quads`segs, quads`repr, nodes
      ensures Valid() && fresh(nodes - old(nodes))
      ensures AllCovered(slots) == AllCovered(old(slots)) + Positions(s, len1 + len2)
      ensures AllAcked(slots) == AllAcked(old(slots))
      ensures rexlen == |AllCovered(old(slots)) * Positions(s, len1 + len2)|
      ensures out == (OutOfOrder(old(slots)[k], s, s + len1 - 1)
                      || OutOfOrder(old(slots)[j], j * QUADSIZE, j * QUADSIZE + len2 - 1))
      ensures slots == old(slots)[k := Added(old(slots)[k], s, s + len1 - 1, false, now)]
                                 [j := Added(old(slots)[j], j * QUADSIZE, j * QUADSIZE + len2 - 1, false, now)]
    {
      hide Added, Overlap, OutOfOrder, Range, AllCovered, AllAcked, Placed, Positions, Sound, Tallied, Ring;
      SlotsPlaced();
      AddedTwice(slots, k, s, len1, j, j * QUADSIZE, len2, now);
      rexlen, out := AddAt(k, s, len1, now);
      var more, late := AddAt(j, j * QUADSIZE, len2, now);
      rexlen, out := rexlen + more, out || late;
    }

    /** rexmit: records len bytes sent from sequence number s on, and says how many of them had been sent before. The
        range may reach into the next quadrant, but no further. */
    method Rexmit(s: nat, len: nat, now: int) returns (rexlen: nat, out: bool)
      requires Valid() && s < WORD && len > 0 && s % QUADSIZE + len <= 2 * QUADSIZE
      modifies this`centre, this`slots, this`quads, this`nodes, pquad, quads, nodes
      ensures Valid() && fresh(quads - old(quads)) && fresh(nodes - old(nodes)) && centre == s / QUADSIZE
      ensures var c := Recentred(old(slots), old(centre), s / QUADSIZE);
              && AllCovered(slots) == AllCovered(c) + Positions(s, len) && AllAcked(slots) == AllAcked(c)
              && rexlen == |AllCovered(c) * Positions(s, len)| && out == OutOfOrderIn(c, s, len)
      ensures var k, end := s / QUADSIZE, (s / QUADSIZE + 1) * QUADSIZE;
              var c := Recentred(old(slots), old(centre), k);
              slots == if s + len <= end then c[k := Added(c[k], s, s + len - 1, false, now)]
                       else c[k := Added(c[k], s, end - 1, false, now)]
                             [Next(k) := Added(c[Next(k)], Next(k) * QUADSIZE, Next(k) * QUADSIZE + (s + len - end) - 1,
                                               false, now)]
      ensures var k, end := s / QUADSIZE, (s / QUADSIZE + 1) * QUADSIZE;
              var c := Recentred(old(slots), old(centre), k);
              out <==>
                || SomeGap(c[k], s, (if s + len < end then s + len else end) - 1)
                || (s + len > end && SomeGap(c[Next(k)], Next(k) * QUADSIZE, Next(k) * QUADSIZE + (s + len - end) - 1))
    {
      hide Added, Overlap, OutOfOrder, Range, AllCovered, AllAcked, Placed, Positions, Sound, Tallied, Recentred;
      var k := s / QUADSIZE;
      var q := WhichQuad(s);
      SlotsPlaced();
      OutOfOrderParts(slots, s, len);
      hide SomeGap;
      var last := (s + len - 1) % WORD;
      if last / QUADSIZE != k {
        var len1 := (k + 1) * QUADSIZE - s;
        var j := last / QUADSIZE;
        NextPiece(s, len);
        assert q.next == pquad[j];
        rexlen, out := AddAcross(k, s, len1, j, len - len1, now);
      } else {
        AddedToSlot(slots, k, s, len, now);
        PositionsPlain(s, len);
        rexlen, out := AddAt(k, s, len, now);
      }
    }

    /** ack_in. */
    method AckIn(a: Ack) returns (reply: Reply)
      requires Valid() && a.ack < WORD
      modifies this`stats, this`centre, this`slots, this`quads, pquad, quads, nodes
      ensures Valid() && fresh(quads - old(quads)) && centre == a.ack / QUADSIZE
      ensures var k := a.ack / QUADSIZE;
              var c := Recentred(old(slots), old(centre), k);
              var o := AckedIn(c[Prev(k)], c[k], a, old(stats));
              slots == c[Prev(k) := o.prev][k := o.cur] && stats == o.stats && reply == o.reply
    {
      hide Scanned, CumulatedAll, CollapsedIf, Sound, Sum;
      var k := a.ack / QUADSIZE;
      var q := WhichQuad(a.ack);
      SlotsPlaced();
      AckCounted(slots[Prev(k)], slots[k], a, stats, Prev(k) * QUADSIZE, (Prev(k) + 1) * QUADSIZE,
                 k * QUADSIZE, (k + 1) * QUADSIZE);
      assert q.prev == pquad[Prev(k)];
      var sc := AckPreviousAt((k + 3) % 4, Scan(stats, 0, false, NoReply));
      sc := AckCurrentAt(k, a, sc.(changed := false));
      stats, reply := sc.stats, sc.reply;
    }

    /** One event; newBytes is what the caller of rexmit takes off the length. */
    method Sees(e: Traffic) returns (newBytes: nat)
      requires Valid() && Legal(e)
      modifies this`stats, this`centre, this`slots, this`quads, this`nodes, pquad, quads, nodes
      ensures Valid() && fresh(quads - old(quads)) && fresh(nodes - old(nodes)) && centre == SlotOf(e)
      ensures var c := Recentred(old(slots), old(centre), SlotOf(e));
              && Placed(old(slots)) && Placed(slots) && AllCovered(slots) == AllCovered(c) + BytesOf(e)
              && newBytes == |BytesOf(e) - AllCovered(c)|
    {
      hide AllCovered, AllAcked, Placed, Positions, Sound, Ring, Tallied, AckedIn;
      SlotsPlaced();
      ghost var c := Recentred(slots, centre, SlotOf(e));
      DroppedSlot(slots, centre, SlotOf(e));
      match e {
        case Sends(s, len, now) =>
          var rexlen, out := Rexmit(s, len, now);
          PositionsSize(s, len);
          DifferenceSize(Positions(s, len), AllCovered(c));
          newBytes := len - rexlen;
        case Acknowledges(a) =>
          AckSpace(c, SlotOf(e), Prev(SlotOf(e)), a, stats);
          var reply := AckIn(a);
          newBytes := 0;
      }
      SlotsPlaced();
    }

    /** A whole connection: the count of new bytes follows the run, and so obeys the law of conservation. */
    method Replay(es: seq<Traffic>) returns (newBytes: nat, ghost run: seq<Slots>)
      requires Valid() && AllLegal(es)
      modifies this`stats, this`centre, this`slots, this`quads, this`nodes, pquad, quads, nodes
      ensures Valid() && Trace(run, old(centre), es) && run[0] == old(slots) && run[|es|] == slots
      ensures newBytes == NewOnes(run, old(centre), es, |es|)
      ensures newBytes + |AllCovered(old(slots))| == |AllCovered(slots)| + Dropped(run, old(centre), es, |es|)
    {
      hide AllCovered, Placed, BytesOf, Recentred, Sound, Ring, Tallied;
      newBytes, run := 0, [slots];
      SlotsPlaced();
      for i := 0 to |es|
        invariant Valid() && fresh(quads - old(quads)) && fresh(nodes - old(nodes))
        invariant |run| == i + 1 && run[i] == slots && centre == CentreAt(old(centre), es, i) && run[0] == old(slots)
        invariant Trace(run, old(centre), es[..i]) && newBytes == NewOnes(run, old(centre), es[..i], i)
      {
        var more := Sees(es[i]);
        TraceMore(run, old(centre), es, i, slots);
        newBytes, run := newBytes + more, run + [slots];
      }
      assert es[..|es|] == es;
      Conserved(run, old(centre), es, |es|);
    }
  }
}
