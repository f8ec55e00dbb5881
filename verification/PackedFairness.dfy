/**
  Fairness of the lock as it is laid out, for at most 256 threads, in terms of what threads can be seen to do: nobody
  overtakes a waiting thread, and a waiting thread is let in after a bounded number of steps of threads that came
  before it.
 */
module PackedFairness {
  import opened TicketLock
  import opened PackedLock

  /** Thread k has had a ticket from state a to state c. */
  ghost predicate Since(run: seq<Mem>, a: nat, c: nat, k: nat) {
    forall x :: a <= x <= c && x < |run| ==> k < |run[x].pcs| && Member(run[x].pcs[k], HasTicket)
  }

  predicate Queued(pc: Pc) { pc.Drawn? || pc.Spinning? }

  predicate HasLock(pc: Pc) { In(pc, Reader) || In(pc, Writer) }

  /** Thread w waits with its ticket from state a to state c. */
  ghost predicate Waits(run: seq<Mem>, a: nat, c: nat, w: nat) {
    forall x :: a <= x <= c && x < |run| ==> w < |run[x].pcs| && Queued(run[x].pcs[w])
  }

  lemma {:induction false} Threads(n: nat, run: seq<Mem>, j: nat)
    requires MemExecution(n, run) && j < |run|
    ensures |run[j].pcs| == n
  {
    hide Byte, FetchAdd, ZeroByte;
    if j > 0 {
      Threads(n, run, j - 1);
      assert MemStep(run[j - 1], run[j - 1 + 1]);
    }
  }

  // ----- nobody overtakes -----

  /** Each thread that was without a ticket since state a has a later one than thread w now, or none. */
  ghost predicate Behind(run: seq<Mem>, a: nat, c: nat, w: nat, own: seq<nat>) {
    && c < |run| && w < |own| == |run[c].pcs|
    && forall k: nat :: k < |own| && Member(run[c].pcs[k], HasTicket) && !Since(run, a, c, k) ==> own[k] > own[w]
  }

  /** Over a stretch in which thread w has had a ticket throughout. */
  lemma {:induction false} Trail(n: nat, run: seq<Mem>, a: nat, c: nat, w: nat)
    returns (l: Lock, own: seq<nat>, f: Fields)
    requires n <= 256 && MemExecution(n, run) && a <= c < |run| && w < n && Since(run, a, c, w)
    ensures Sim(run[c], l, own, f) && Behind(run, a, c, w, own)
    decreases c
  {
    hide Sim, MemStep, Step;
    Threads(n, run, c);
    if a == c {
      var ls := Refines(n, run);
      assert Stands(run[c], ls[c]);
      l := ls[c];
      own, f :| Sim(run[c], l, own, f);
      FieldsFit(run[c], l, own, f);
    } else {
      l, own, f := Trail(n, run, a, c - 1, w);
      assert MemStep(run[c - 1], run[c - 1 + 1]);
      l, own, f := BehindStep(run, a, c, w, l, own, f);
    }
  }

  lemma {:induction false} BehindStep(run: seq<Mem>, a: nat, c: nat, w: nat, l: Lock, own: seq<nat>, f: Fields)
    returns (l': Lock, own': seq<nat>, f': Fields)
    requires a < c < |run| && MemStep(run[c - 1], run[c]) && Since(run, a, c, w)
    requires Sim(run[c - 1], l, own, f) && Behind(run, a, c - 1, w, own)
    ensures Sim(run[c], l', own', f') && Behind(run, a, c, w, own')
  {
    hide Sim, CanStep, Step, Advance, Since;
    SinceNext(run, a, c - 1, w);
    SinceHas(run, a, c - 1, w);
    var i: nat, kind :| CanStep(run[c - 1], i) && run[c] == Advance(run[c - 1], i, kind);
    InRange(run[c - 1], i);
    l', own', f' := SimStep(run[c - 1], l, own, f, i, kind);
    TicketDrawn(run[c - 1], l, own, f, w);
    OthersStay(run[c - 1], i, kind);
    forall k: nat | k < |own'| && Member(run[c].pcs[k], HasTicket) && !Since(run, a, c, k) ensures own'[k] > own'[w] {
      SinceNext(run, a, c - 1, k);
    }
  }

  lemma {:induction false} InRange(s: Mem, i: nat)
    requires CanStep(s, i)
    ensures i < |s.pcs|
  {
  }

  lemma {:induction false} TicketDrawn(s: Mem, l: Lock, own: seq<nat>, f: Fields, w: nat)
    requires Sim(s, l, own, f) && w < |s.pcs| && Member(s.pcs[w], HasTicket)
    ensures w < |own| && own[w] < |l.tickets|
  {
    assert Linked(s.pcs[w], own[w], l);
  }

  /** A step moves one thread, along its path. */
  lemma {:induction false} OthersStay(s: Mem, i: nat, kind: Kind)
    requires CanStep(s, i)
    ensures var s' := Advance(s, i, kind);
            && |s'.pcs| == |s.pcs| && s'.pcs == s.pcs[i := s'.pcs[i]]
            && (Member(s.pcs[i], HasTicket) ==> Rest(s'.pcs[i]) + 1 == Rest(s.pcs[i]))
            && (!Member(s.pcs[i], HasTicket) && Member(s'.pcs[i], HasTicket) ==> s.pcs[i] == Idle)
            && (HasLock(s.pcs[i]) ==> HasLock(s'.pcs[i]) || !Member(s'.pcs[i], HasTicket))
  {
    hide Byte, FetchAdd, ZeroByte;
  }

  /** Steps a thread takes until it has given its ticket back. */
  function Rest(pc: Pc): nat {
    match pc
    case Drawn(Writer, _) => 3
    case Drawn(Reader, _) => 5
    case Spinning(Writer, _) => 2
    case Spinning(Reader, _) => 4
    case Matched => 3
    case Counted => 2
    case Inside(_) => 1
    case _ => 0
  }

  /** While a ticket waits, every later one waits too. */
  lemma {:induction false} LaterWait(s: Mem, l: Lock, own: seq<nat>, f: Fields, w: nat, k: nat)
    requires Sim(s, l, own, f) && w < |s.pcs| && k < |s.pcs| && Queued(s.pcs[w])
    requires Member(s.pcs[k], HasTicket) && own[k] > own[w]
    ensures Queued(s.pcs[k])
  {
    hide Count, FieldsOk, Pack;
    assert Linked(s.pcs[w], own[w], l) && Linked(s.pcs[k], own[k], l);
    assert own[w] < l.ar ==> Entered(l.tickets[own[w]]);
    assert Pending(l, own[k]);
  }

  /** First come, first served: while thread w waits, a thread that was seen without a ticket in the meantime, and so
      has drawn after w if at all, does not get in. */
  lemma {:induction false} NobodyOvertakes(n: nat, run: seq<Mem>, a: nat, b: nat, c: nat, w: nat, k: nat)
    requires n <= 256 && MemExecution(n, run) && a <= b <= c < |run| && w < n && k < n
    requires Waits(run, a, c, w) && k < |run[b].pcs| && !Member(run[b].pcs[k], HasTicket)
    ensures k < |run[c].pcs| && !HasLock(run[c].pcs[k]) && !run[c].pcs[k].Matched?
  {
    hide MemExecution, Sim;
    Threads(n, run, c);
    assert Since(run, a, c, w);
    var l, own, f := Trail(n, run, a, c, w);
    assert !Since(run, a, c, k);
    if Member(run[c].pcs[k], HasTicket) {
      LaterWait(run[c], l, own, f, w, k);
    }
  }

  /** Thread k gets in by the step from state x. */
  ghost predicate Enters(run: seq<Mem>, x: nat, k: nat) {
    && x + 1 < |run| && k < |run[x].pcs| && k < |run[x + 1].pcs|
    && !HasLock(run[x].pcs[k]) && HasLock(run[x + 1].pcs[k])
  }

  /** Between holding and not holding a thread is without a ticket. */
  lemma {:induction false} Between(n: nat, run: seq<Mem>, x: nat, y: nat, k: nat) returns (b: nat)
    requires MemExecution(n, run) && x <= y < |run| && k < n
    requires k < |run[x].pcs| && k < |run[y].pcs| && HasLock(run[x].pcs[k]) && !HasLock(run[y].pcs[k])
    ensures x <= b <= y && k < |run[b].pcs| && !Member(run[b].pcs[k], HasTicket)
    decreases y
  {
    hide Advance, CanStep;
    Threads(n, run, y - 1);
    if HasLock(run[y - 1].pcs[k]) {
      assert MemStep(run[y - 1], run[y - 1 + 1]);
      var i: nat, kind :| CanStep(run[y - 1], i) && run[y] == Advance(run[y - 1], i, kind);
      InRange(run[y - 1], i);
      OthersStay(run[y - 1], i, kind);
      b := y;
    } else {
      b := Between(n, run, x, y - 1, k);
    }
  }

  lemma {:induction false} EntersAgain(n: nat, run: seq<Mem>, a: nat, c: nat, w: nat, k: nat, x: nat, y: nat)
    requires n <= 256 && MemExecution(n, run) && c < |run| && w < n && k < n && Waits(run, a, c, w)
    requires a <= x < y < c && Enters(run, x, k)
    ensures !Enters(run, y, k)
  {
    hide MemExecution;
    if Enters(run, y, k) {
      var b := Between(n, run, x + 1, y, k);
      WaitsPart(run, a, y + 1, c, w);
      NobodyOvertakes(n, run, a, b, y + 1, w, k);
    }
  }

  lemma {:induction false} WaitsPart(run: seq<Mem>, a: nat, b: nat, c: nat, w: nat)
    requires Waits(run, a, c, w) && b <= c
    ensures Waits(run, a, b, w)
  {
  }

  /** While a thread waits, each other thread gets in at most once. */
  lemma {:induction false} OnceEach(n: nat, run: seq<Mem>, a: nat, c: nat, w: nat, k: nat, x: nat, y: nat)
    requires n <= 256 && MemExecution(n, run) && c < |run| && w < n && k < n && Waits(run, a, c, w)
    requires a <= x < c && a <= y < c && Enters(run, x, k) && Enters(run, y, k)
    ensures x == y
  {
    if x < y {
      EntersAgain(n, run, a, c, w, k, x, y);
    } else if y < x {
      EntersAgain(n, run, a, c, w, k, y, x);
    }
  }

  // ----- nobody starves -----

  /** What the first m threads that have had their tickets since state a have left to do. */
  ghost function Rank(run: seq<Mem>, a: nat, j: nat, m: nat): nat
    requires j < |run| && m <= |run[j].pcs|
  {
    if m == 0 then 0
    else Rank(run, a, j, m - 1) + if Since(run, a, j, m - 1) then Rest(run[j].pcs[m - 1]) else 0
  }

  /** The step from state j is one of a thread that has had its ticket since state a. */
  ghost predicate Early(run: seq<Mem>, a: nat, j: nat) {
    && j + 1 < |run| && |run[j].pcs| == |run[j + 1].pcs|
    && exists k: nat :: k < |run[j].pcs| && Since(run, a, j, k) && run[j + 1].pcs[k] != run[j].pcs[k]
  }

  ghost function EarlySteps(run: seq<Mem>, a: nat, c: nat): nat
    requires a <= c
    decreases c
  {
    if a == c then 0 else EarlySteps(run, a, c - 1) + if Early(run, a, c - 1) then 1 else 0
  }

  lemma {:induction false} SinceNext(run: seq<Mem>, a: nat, j: nat, k: nat)
    requires a <= j && j + 1 < |run|
    ensures Since(run, a, j + 1, k) <==>
            Since(run, a, j, k) && k < |run[j + 1].pcs| && Member(run[j + 1].pcs[k], HasTicket)
  {
  }

  lemma {:induction false} RankStep(run: seq<Mem>, a: nat, j: nat, m: nat, i: nat, kind: Kind)
    requires a <= j && j + 1 < |run| && CanStep(run[j], i) && run[j + 1] == Advance(run[j], i, kind)
    requires m <= |run[j].pcs| == |run[j + 1].pcs|
    ensures Rank(run, a, j + 1, m) + (if i < m && Since(run, a, j, i) then 1 else 0) == Rank(run, a, j, m)
    decreases m
  {
    hide Advance, CanStep, Since;
    if m > 0 {
      RankStep(run, a, j, m - 1, i, kind);
      SinceNext(run, a, j, m - 1);
      SinceHas(run, a, j, m - 1);
      OthersStay(run[j], i, kind);
    }
  }

  lemma {:induction false} SinceHas(run: seq<Mem>, a: nat, j: nat, k: nat)
    requires a <= j < |run|
    ensures Since(run, a, j, k) ==> k < |run[j].pcs| && Member(run[j].pcs[k], HasTicket)
  {
  }

  lemma {:induction false} EarlyRank(n: nat, run: seq<Mem>, a: nat, c: nat)
    requires MemExecution(n, run) && a <= c < |run|
    ensures |run[a].pcs| == n && |run[c].pcs| == n
    ensures EarlySteps(run, a, c) + Rank(run, a, c, n) == Rank(run, a, a, n)
    decreases c
  {
    hide Advance, CanStep, Since, Rank;
    Threads(n, run, a);
    Threads(n, run, c);
    if a < c {
      EarlyRank(n, run, a, c - 1);
      assert MemStep(run[c - 1], run[c - 1 + 1]);
      var i: nat, kind :| CanStep(run[c - 1], i) && run[c] == Advance(run[c - 1], i, kind);
      InRange(run[c - 1], i);
      RankStep(run, a, c - 1, n, i, kind);
      EarlyIs(run, a, c - 1, i, kind);
    }
  }

  lemma {:induction false} EarlyIs(run: seq<Mem>, a: nat, j: nat, i: nat, kind: Kind)
    requires a <= j && j + 1 < |run| && CanStep(run[j], i) && run[j + 1] == Advance(run[j], i, kind)
    ensures Early(run, a, j) <==> Since(run, a, j, i)
  {
    hide Advance, CanStep, Since;
    InRange(run[j], i);
    OthersStay(run[j], i, kind);
    SinceHas(run, a, j, i);
  }

  lemma {:induction false} RankAtMost(run: seq<Mem>, a: nat, j: nat, m: nat)
    requires j < |run| && m <= |run[j].pcs|
    ensures Rank(run, a, j, m) <= 5 * m
    ensures forall k: nat :: k < m && Since(run, a, j, k) ==> Rank(run, a, j, m) >= Rest(run[j].pcs[k])
    decreases m
  {
    hide Since;
    if m > 0 { RankAtMost(run, a, j, m - 1); }
  }

  /** No starvation: as long as thread w waits, some thread that has had its ticket all the while can step; and such
      threads take fewer than 5 * n steps in all, whatever threads with later tickets do. */
  lemma {:induction false} NoStarvationUpTo256(n: nat, run: seq<Mem>, a: nat, c: nat, w: nat) returns (k: nat)
    requires n <= 256 && MemExecution(n, run) && a <= c < |run| && w < n && Waits(run, a, c, w)
    ensures k < n && Since(run, a, c, k) && CanStep(run[c], k)
    ensures EarlySteps(run, a, c) < 5 * n
  {
    hide MemExecution, Sim, CanStep, Rank;
    assert Since(run, a, c, w);
    EarlyRank(n, run, a, c);
    RankAtMost(run, a, a, n);
    RankAtMost(run, a, c, n);
    assert Rest(run[c].pcs[w]) > 0;
    var l, own, f := Trail(n, run, a, c, w);
    k := TicketSteps(run[c], l, own, f, w);
  }
}
