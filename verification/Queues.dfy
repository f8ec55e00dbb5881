/**
  The zero-copy IPC queues: push, pull, flush and the hybrid call of SharedHashFile, in place on the
  shared link array. Each process works on its own unlocked batches; only a flush touches the locked queues.
 */
module Queues {
  import opened QueueLists
  import opened QueueLinks
  import opened QueueFrames

  // ----- what one process sees: a plain first-in first-out queue per qid -----

  type Views = seq<seq<nat>>

  function ViewsOf(ls: Lists, p: nat, procs: nat, qs: nat): (vs: Views)
    requires Complete(ls, procs, qs) && p < procs
    ensures |vs| == qs && forall q :: 0 <= q < qs ==> vs[q] == View(ls, p, q)
  {
    seq(qs, q requires 0 <= q < qs => View(ls, p, q))
  }

  function PushView(vs: Views, q: nat, x: nat): Views
    requires q < |vs|
  {
    if x == NONE then vs else vs[q := vs[q] + [x]]
  }

  function PullView(vs: Views, q: nat): (nat, Views)
    requires q < |vs|
  {
    if vs[q] == [] then (NONE, vs) else (vs[q][0], vs[q := vs[q][1..]])
  }

  /** A place only process p may touch without the lock. */
  predicate Private(place: Place, p: nat) {
    match place
    case Hand(o) => o == p
    case At(Locked(_)) => false
    case At(Push(o, _)) => o == p
    case At(Pull(o, _)) => o == p
  }

  /** Who holds what after process p gave up `pushed` and got `pulled`; either may be NONE. */
  ghost predicate HandsMoved(was: seq<Place>, now: seq<Place>, p: nat, pushed: nat, pulled: nat) {
    && |was| == |now|
    && forall x, o :: 0 <= x < |was| ==>
         (now[x] == Hand(o) <==> (was[x] == Hand(o) && x != pushed) || (x == pulled && o == p))
  }

  ghost predicate SameHands(was: seq<Place>, now: seq<Place>) {
    |was| == |now| && forall x, p :: 0 <= x < |was| ==> (was[x] == Hand(p) <==> now[x] == Hand(p))
  }

  function FlushOf(p: nat, q: nat): Event {
    if q == NONE then Flushed(p) else FlushedInto(p, q)
  }

  /** What a flush keeps: who holds what, other processes' links, and the tails of the locked queues but for `hit`. */
  ghost predicate Framed(p: nat, s: Shot, s': Shot, hit: int) {
    SameHands(s.owner, s'.owner) && OwnOnly(p, s, s') && Tails(s, s', hit)
  }

  lemma {:induction false} FramedTwice(p: nat, s: Shot, s': Shot, s'': Shot, hit: int)
    requires Framed(p, s, s', -1) && Framed(p, s', s'', hit) && StillBusy(s.lists, s'.lists)
    ensures Framed(p, s, s'', hit)
  {
    hide OwnOnly, Tails;
    OwnOnlyTwice(p, s, s', s'');
    TailsTwice(s, s', s'', hit);
  }

  /** The pull batch for queue q has been filled from its locked queue, whose tail becomes stale if a part is left. */
  ghost predicate Filled(p: nat, q: nat, max: nat, s: Shot, s': Shot) {
    && Pull(p, q) in s.lists && Locked(q) in s.lists && s'.lists == RefillLists(s.lists, p, q, max)
    && Framed(p, s, s', if Partial(s.lists, p, q, max) then q else -1)
  }

  /** The push batches for queues below n have gone to their locked queues. */
  ghost predicate DrainedTo(was: Lists, now: Lists, p: nat, n: nat) {
    (forall q :: 0 <= q < n ==> Push(p, q) in was && Locked(q) in was) && now == DrainLists(was, p, n)
  }

  lemma {:induction false} DrainNothing(ls: Lists, p: nat, q: nat)
    requires Push(p, q) in ls && Locked(q) in ls && ls[Push(p, q)] == []
    ensures DrainOne(ls, p, q) == ls
  {
    assert ls[Locked(q)] + [] == ls[Locked(q)];
  }

  lemma {:induction false} RefillNothing(ls: Lists, p: nat, q: nat, max: nat)
    requires Pull(p, q) in ls && Locked(q) in ls
    requires Refill(|ls[Pull(p, q)]|, |ls[Locked(q)]|, max) == 0
    ensures RefillLists(ls, p, q, max) == ls
  {
    assert ls[Pull(p, q)] + ls[Locked(q)][..0] == ls[Pull(p, q)];
  }

  lemma {:induction false} MoveAll(ls: Lists, p: nat, q: nat)
    requires Push(p, q) in ls && Locked(q) in ls
    ensures MoveLists(ls, Locked(q), Push(p, q), |ls[Push(p, q)]|) == DrainOne(ls, p, q)
  {
    var xs := ls[Push(p, q)];
    assert xs[..|xs|] == xs && xs[|xs|..] == [];
  }

  lemma {:induction false} DrainBusy(ls: Lists, p: nat, n: nat)
    requires forall k :: 0 <= k < n ==> Push(p, k) in ls && Locked(k) in ls
    ensures StillBusy(ls, DrainLists(ls, p, n))
  {
    hide DrainLists;
    forall q: nat | Busy(ls, q) ensures Busy(DrainLists(ls, p, n), q) { DrainEffect(ls, p, n, Locked(q)); }
  }

  ghost predicate Movable(rec: map<Loc, Qid>, s: Shot, a: Loc, b: Loc, n: nat) {
    && a in s.lists && b in s.lists && a != b && a in rec && 0 < n <= |s.lists[b]| && Sized(s)
    && s.lists[b][0] < |s.nx| && s.lists[b][n - 1] < |s.nx| && (rec[a].head != NONE ==> rec[a].head < |s.nx|)
  }

  lemma {:induction false} PlacedHands(owner: seq<Place>, xs: seq<nat>, a: Loc)
    requires forall k :: 0 <= k < |xs| ==> xs[k] < |owner| && owner[xs[k]].At?
    ensures SameHands(owner, Placed(owner, xs, At(a)))
  {
  }

  /** Batches of processes other than p are as they were. */
  ghost predicate OthersKept(was: Lists, now: Lists, p: nat) {
    was.Keys == now.Keys && forall loc :: loc in was && !loc.Locked? && loc.p != p ==> now[loc] == was[loc]
  }

  lemma {:induction false} OthersStep(ls: Lists, e: Event, procs: nat, qs: nat, max: nat)
    requires Complete(ls, procs, qs) && Enabled(ls, e, procs, qs)
    ensures OthersKept(ls, After(ls, e, procs, qs, max), e.p)
  {
    hide DrainLists;
    forall loc | loc in ls && !loc.Locked? && loc.p != e.p ensures After(ls, e, procs, qs, max)[loc] == ls[loc] {
      DrainEffectIn(ls, e.p, procs, qs, loc);
    }
  }

  lemma {:induction false} DrainEffectIn(ls: Lists, p: nat, procs: nat, qs: nat, loc: Loc)
    requires Complete(ls, procs, qs) && p < procs && loc in ls && !loc.Locked?
    ensures Sees(ls, p, qs)
    ensures DrainLists(ls, p, qs)[loc] == if loc.Push? && loc.p == p then [] else ls[loc]
  {
    DrainEffect(ls, p, qs, loc);
  }

  /** A link appends to the process's view of one queue. */
  lemma {:induction false} LinkedViews(ls: Lists, p: nat, q: nat, x: nat, procs: nat, qs: nat, max: nat)
    requires Complete(ls, procs, qs) && p < procs && q < qs && x != NONE
    ensures ViewsOf(After(ls, Linked(p, q, x), procs, qs, max), p, procs, qs) == PushView(ViewsOf(ls, p, procs, qs), q, x)
  {
    var ls' := After(ls, Linked(p, q, x), procs, qs, max);
    forall k | 0 <= k < qs ensures View(ls', p, k) == if k == q then View(ls, p, k) + [x] else View(ls, p, k) {
      LinkView(ls, p, q, x, qs, k);
    }
  }

  /** An unlink takes the first item of the process's view. */
  lemma {:induction false} UnlinkedViews(ls: Lists, p: nat, q: nat, procs: nat, qs: nat, max: nat)
    requires Complete(ls, procs, qs) && Enabled(ls, Unlinked(p, q), procs, qs)
    ensures (ls[Pull(p, q)][0], ViewsOf(After(ls, Unlinked(p, q), procs, qs, max), p, procs, qs))
            == PullView(ViewsOf(ls, p, procs, qs), q)
  {
    var ls' := After(ls, Unlinked(p, q), procs, qs, max);
    forall k | 0 <= k < qs ensures View(ls', p, k) == if k == q then View(ls, p, k)[1..] else View(ls, p, k) {
      UnlinkView(ls, p, q, qs, k);
    }
    UnlinkView(ls, p, q, qs, q);
    var vs := ViewsOf(ls, p, procs, qs);
    assert ViewsOf(ls', p, procs, qs) == vs[q := vs[q][1..]];
  }

  /** A flush changes no view of its process, and leaves the pull batch empty only if the view is. */
  lemma {:induction false} FlushedViews(ls: Lists, p: nat, q: nat, procs: nat, qs: nat, max: nat)
    requires Complete(ls, procs, qs) && p < procs && (q == NONE || q < qs) && max > 0
    ensures ViewsOf(After(ls, FlushOf(p, q), procs, qs, max), p, procs, qs) == ViewsOf(ls, p, procs, qs)
    ensures q != NONE && After(ls, FlushOf(p, q), procs, qs, max)[Pull(p, q)] == [] ==> ViewsOf(ls, p, procs, qs)[q] == []
  {
    hide DrainLists, RefillLists, View;
    var ls' := After(ls, FlushOf(p, q), procs, qs, max);
    var drained := DrainLists(ls, p, qs);
    forall k | 0 <= k < qs ensures View(ls', p, k) == View(ls, p, k) {
      DrainView(ls, p, qs, qs, k);
      if q != NONE { RefillView(drained, p, q, max, qs, k); }
    }
    if q != NONE {
      DrainView(ls, p, qs, qs, q);
      DrainEffectIn(ls, p, procs, qs, Push(p, q));
      RefilledAll(drained, p, q, max);
    }
  }

  lemma {:induction false} RefilledAll(ls: Lists, p: nat, q: nat, max: nat)
    requires Pull(p, q) in ls && Locked(q) in ls && Push(p, q) in ls && ls[Push(p, q)] == [] && max > 0
    ensures RefillLists(ls, p, q, max)[Pull(p, q)] == [] ==> View(ls, p, q) == []
  {
  }

  // ----- what a push and a pull do to the lists -----

  /** Links the item, and flushes if the push batch is then full. */
  ghost function PushedLists(ls: Lists, p: nat, q: nat, x: nat, procs: nat, qs: nat, max: nat): Lists
    requires Complete(ls, procs, qs) && p < procs && q < qs
  {
    if x == NONE then ls
    else
      var l := After(ls, Linked(p, q, x), procs, qs, max);
      if |l[Push(p, q)]| >= max then After(l, Flushed(p), procs, qs, max) else l
  }

  /** Unlinks the first item of the pull batch, if there is one. */
  ghost function TakenLists(ls: Lists, p: nat, q: nat, procs: nat, qs: nat, max: nat): Lists
    requires Complete(ls, procs, qs) && p < procs && q < qs
  {
    if ls[Pull(p, q)] == [] then ls else After(ls, Unlinked(p, q), procs, qs, max)
  }

  /** Flushes if the pull batch is empty, and unlinks. */
  ghost function PulledLists(ls: Lists, p: nat, q: nat, procs: nat, qs: nat, max: nat): Lists
    requires Complete(ls, procs, qs) && p < procs && q < qs
  {
    TakenLists(if ls[Pull(p, q)] == [] then After(ls, FlushedInto(p, q), procs, qs, max) else ls, p, q, procs, qs, max)
  }

  /** Links, flushes once if the push batch is full or the pull batch empty, and unlinks. */
  ghost function HybridLists(ls: Lists, p: nat, pushQid: nat, x: nat, pullQid: nat, procs: nat, qs: nat, max: nat): Lists
    requires Complete(ls, procs, qs) && p < procs && pushQid < qs && pullQid < qs
  {
    var l := if x == NONE then ls else After(ls, Linked(p, pushQid, x), procs, qs, max);
    TakenLists(if |l[Push(p, pushQid)]| >= max || l[Pull(p, pullQid)] == []
               then After(l, FlushedInto(p, pullQid), procs, qs, max) else l,
               p, pullQid, procs, qs, max)
  }

  // ----- the same, list by list -----

  /** A flush, queue by queue: every push batch is empty and its items are at the end of their locked queue, and of the
      queue it pulls from so many items are in the pull batch that it is full or the locked queue empty, but no more. */
  lemma {:induction false} FlushedExactly(ls: Lists, p: nat, q: nat, procs: nat, qs: nat, max: nat, k: nat)
    requires Complete(ls, procs, qs) && p < procs && (q == NONE || q < qs) && k < qs <= NONE
    ensures var r := After(ls, FlushOf(p, q), procs, qs, max);
            && r[Push(p, k)] == []
            && (k != q ==> r[Pull(p, k)] == ls[Pull(p, k)] && r[Locked(k)] == ls[Locked(k)] + ls[Push(p, k)])
            && (k == q ==>
                  && r[Pull(p, k)] + r[Locked(k)] == ls[Pull(p, k)] + ls[Locked(k)] + ls[Push(p, k)]
                  && |ls[Pull(p, k)]| <= |r[Pull(p, k)]|
                  && (|r[Pull(p, k)]| >= max || r[Locked(k)] == [])
                  && (|r[Pull(p, k)]| <= max || r[Pull(p, k)] == ls[Pull(p, k)]))
  {
    hide DrainLists;
    DrainEffect(ls, p, qs, Push(p, k));
    DrainEffect(ls, p, qs, Pull(p, k));
    DrainEffect(ls, p, qs, Locked(k));
    var all, n := ls[Locked(k)] + ls[Push(p, k)], Refill(|ls[Pull(p, k)]|, |ls[Locked(k)] + ls[Push(p, k)]|, max);
    assert all == all[..n] + all[n..];
  }

  /** A push links the item; if that leaves the batch below its limit no other list changes, and otherwise every push
      batch of the process goes to its locked queue. */
  lemma {:induction false} PushedExactly(ls: Lists, p: nat, q: nat, x: nat, procs: nat, qs: nat, max: nat, k: nat)
    requires Complete(ls, procs, qs) && p < procs && q < qs && k < qs <= NONE
    ensures var r := PushedLists(ls, p, q, x, procs, qs, max);
            && (x == NONE ==> r == ls)
            && (x != NONE && |ls[Push(p, q)]| + 1 < max ==> r == ls[Push(p, q) := ls[Push(p, q)] + [x]])
            && (x != NONE && |ls[Push(p, q)]| + 1 >= max ==>
                  && r.Keys == ls.Keys && r[Push(p, k)] == [] && r[Pull(p, k)] == ls[Pull(p, k)]
                  && r[Locked(k)] == ls[Locked(k)] + ls[Push(p, k)] + if k == q then [x] else [])
  {
    hide DrainLists;
    if x != NONE && |ls[Push(p, q)]| + 1 >= max {
      var l := ls[Push(p, q) := ls[Push(p, q)] + [x]];
      FlushedExactly(l, p, NONE, procs, qs, max, k);
      assert ls[Locked(k)] + (ls[Push(p, k)] + [x]) == ls[Locked(k)] + ls[Push(p, k)] + [x];
    }
  }

  /** A pull takes the first item of the pull batch, and no other list changes; only if there is none, the process
      flushes first. */
  lemma {:induction false} PulledExactly(ls: Lists, p: nat, q: nat, procs: nat, qs: nat, max: nat, k: nat)
    requires Complete(ls, procs, qs) && p < procs && q < qs && k < qs <= NONE && max > 0
    ensures var r, all := PulledLists(ls, p, q, procs, qs, max), ls[Locked(q)] + ls[Push(p, q)];
            && (ls[Pull(p, q)] != [] ==> r == ls[Pull(p, q) := ls[Pull(p, q)][1..]])
            && (ls[Pull(p, q)] == [] ==>
                  && r.Keys == ls.Keys && r[Push(p, k)] == []
                  && (k != q ==> r[Pull(p, k)] == ls[Pull(p, k)] && r[Locked(k)] == ls[Locked(k)] + ls[Push(p, k)])
                  && (all == [] ==> r[Pull(p, q)] == [] && r[Locked(q)] == [])
                  && (all != [] ==>
                        && r[Pull(p, q)] + r[Locked(q)] == all[1..]
                        && |r[Pull(p, q)]| < max && (|r[Pull(p, q)]| == max - 1 || r[Locked(q)] == [])))
  {
    hide After;
    if ls[Pull(p, q)] == [] {
      var l := After(ls, FlushedInto(p, q), procs, qs, max);
      FlushedExactly(ls, p, q, procs, qs, max, k);
      FlushedExactly(ls, p, q, procs, qs, max, q);
      TakenExactly(l, p, q, procs, qs, max);
      if l[Pull(p, q)] != [] {
        assert l[Pull(p, q)][1..] + l[Locked(q)] == (l[Pull(p, q)] + l[Locked(q)])[1..];
      }
    } else {
      TakenExactly(ls, p, q, procs, qs, max);
    }
  }

  lemma {:induction false} TakenExactly(ls: Lists, p: nat, q: nat, procs: nat, qs: nat, max: nat)
    requires Complete(ls, procs, qs) && p < procs && q < qs
    ensures TakenLists(ls, p, q, procs, qs, max)
            == if ls[Pull(p, q)] == [] then ls else ls[Pull(p, q) := ls[Pull(p, q)][1..]]
  {
  }

  /** The hybrid call links, flushes exactly if the push batch has reached its limit or the pull batch is empty, and
      takes the first item of the pull batch. */
  lemma {:induction false} HybridExactly(ls: Lists, p: nat, pushQid: nat, x: nat, pullQid: nat,
                                         procs: nat, qs: nat, max: nat)
    requires Complete(ls, procs, qs) && p < procs && pushQid < qs && pullQid < qs
    ensures var l := if x == NONE then ls else ls[Push(p, pushQid) := ls[Push(p, pushQid)] + [x]];
            && Complete(l, procs, qs)
            && var f := if |l[Push(p, pushQid)]| < max && ls[Pull(p, pullQid)] != [] then l
                        else After(l, FlushedInto(p, pullQid), procs, qs, max);
               && HybridLists(ls, p, pushQid, x, pullQid, procs, qs, max)
                  == if f[Pull(p, pullQid)] == [] then f else f[Pull(p, pullQid) := f[Pull(p, pullQid)][1..]]
  {
    var l := if x == NONE then ls else ls[Push(p, pushQid) := ls[Push(p, pushQid)] + [x]];
    assert l == if x == NONE then ls else After(ls, Linked(p, pushQid, x), procs, qs, max);
    var f := if |l[Push(p, pushQid)]| < max && ls[Pull(p, pullQid)] != [] then l
             else After(l, FlushedInto(p, pullQid), procs, qs, max);
    TakenExactly(f, p, pullQid, procs, qs, max);
  }

  /** The item pulled is the first of all that the process has of the queue, the item just pushed included. */
  lemma {:induction false} ItemPulled(ls: Lists, p: nat, pushQid: nat, x: nat, pullQid: nat, procs: nat, qs: nat)
    requires Complete(ls, procs, qs) && p < procs && pushQid < qs && pullQid < qs
    ensures var all := ls[Pull(p, pullQid)] + ls[Locked(pullQid)] + ls[Push(p, pullQid)]
                       + if pushQid == pullQid && x != NONE then [x] else [];
            PullView(PushView(ViewsOf(ls, p, procs, qs), pushQid, x), pullQid).0 == if all == [] then NONE else all[0]
  {
    assert ViewsOf(ls, p, procs, qs)[pullQid] == View(ls, p, pullQid);
  }

  // ----- runs -----

  type Held = map<nat, nat>   // item to the process that holds it

  ghost predicate Agree(held: Held, owner: seq<Place>) {
    forall x, p :: 0 <= x < |owner| ==> (owner[x] == Hand(p) <==> x in held && held[x] == p)
  }

  /** A process links only an item it holds, and holds what it unlinks. */
  ghost predicate Handled(ls: Lists, e: Event, held: Held, held': Held) {
    match e
    case Linked(p, q, x) => x in held && held[x] == p && held' == held - {x}
    case Unlinked(p, q) => Pull(p, q) in ls && ls[Pull(p, q)] != [] && held' == held[ls[Pull(p, q)][0] := p]
    case Flushed(_) => held' == held
    case FlushedInto(_, _) => held' == held
  }

  ghost predicate Run(run: seq<Lists>, hands: seq<Held>, es: seq<Event>, procs: nat, qs: nat, items: nat, max: nat) {
    && Interleaving(run, es, procs, qs, max) && |hands| == |run|
    && (forall i :: 0 <= i < |es| ==> Handled(run[i], es[i], hands[i], hands[i + 1]))
    && (forall i :: 0 <= i < |es| && es[i].Linked? ==> es[i].x < items)
  }

  // ----- the state shf_q_new leaves -----

  function AllLocs(procs: nat, qs: nat): set<Loc> {
    (set q | 0 <= q < qs :: Locked(q))
    + (set p, q | 0 <= p < procs && 0 <= q < qs :: Push(p, q))
    + (set p, q | 0 <= p < procs && 0 <= q < qs :: Pull(p, q))
  }

  function Upto(n: nat): (xs: seq<nat>)
    ensures |xs| == n && forall i :: 0 <= i < n ==> xs[i] == i
  {
    seq(n, i => i)
  }

  ghost function InitialLists(procs: nat, qs: nat, items: nat): Lists {
    map loc | loc in AllLocs(procs, qs) :: if loc == Locked(0) then Upto(items) else []
  }

  function InitialRecords(procs: nat, qs: nat, items: nat): map<Loc, Qid>
    requires items > 0
  {
    map loc | loc in AllLocs(procs, qs) :: if loc == Locked(0) then Qid(items - 1, 0, items) else EMPTY
  }

  ghost predicate InitialLinks(nx: seq<nat>, ls: seq<nat>) {
    && |nx| == |ls| && (forall i :: 0 <= i < |nx| - 1 ==> nx[i] == i + 1) && (|nx| > 0 ==> nx[|nx| - 1] == NONE)
    && (forall i :: 0 < i < |ls| ==> ls[i] == i - 1)
  }

  lemma {:induction false} InitialList(procs: nat, qs: nat, items: nat, loc: Loc)
    requires items > 0
    ensures loc in AllLocs(procs, qs) <==> InSpace(loc, procs, qs)
    ensures loc in InitialLists(procs, qs, items) <==> InSpace(loc, procs, qs)
    ensures InSpace(loc, procs, qs) ==>
              && InitialLists(procs, qs, items)[loc] == (if loc == Locked(0) then Upto(items) else [])
              && InitialRecords(procs, qs, items)[loc] == (if loc == Locked(0) then Qid(items - 1, 0, items) else EMPTY)
  {
  }

  /** One list with every item, the others empty. */
  ghost predicate Only(lists: Lists, rec: map<Loc, Qid>, items: nat)
    requires items > 0
  {
    && Locked(0) in lists && rec.Keys == lists.Keys
    && forall loc :: loc in lists ==>
         if loc == Locked(0) then lists[loc] == Upto(items) && rec[loc] == Qid(items - 1, 0, items)
         else lists[loc] == [] && rec[loc] == EMPTY
  }

  lemma {:induction false} OnlyOwned(lists: Lists, rec: map<Loc, Qid>, items: nat)
    requires items > 0 && Only(lists, rec, items)
    ensures Owned(lists, seq(items, _ => At(Locked(0))))
  {
    forall i | 0 <= i < items ensures i in Upto(items) { assert Upto(items)[i] == i; }
    assert Simple(lists, items);
  }

  lemma {:induction false} OnlyLinked(lists: Lists, rec: map<Loc, Qid>, items: nat, nx: seq<nat>, ls: seq<nat>)
    requires 0 < items == |nx| <= NONE && InitialLinks(nx, ls) && Only(lists, rec, items)
    ensures AllLinked(rec, lists, nx, ls)
  {
    assert Chain(Qid(items - 1, 0, items), Upto(items), nx, ls) && Chain(EMPTY, [], nx, ls);
    hide Chain;
  }

  lemma {:induction false} InitialOnly(procs: nat, qs: nat, items: nat)
    requires qs > 0 && items > 0
    ensures Complete(InitialLists(procs, qs, items), procs, qs)
    ensures Only(InitialLists(procs, qs, items), InitialRecords(procs, qs, items), items)
  {
    var lists, rec := InitialLists(procs, qs, items), InitialRecords(procs, qs, items);
    assert rec.Keys == lists.Keys;
    hide InitialLists, InitialRecords, AllLocs, Upto;
    forall loc
      ensures loc in lists <==> InSpace(loc, procs, qs)
      ensures loc in lists ==>
                && lists[loc] == (if loc == Locked(0) then Upto(items) else [])
                && rec[loc] == (if loc == Locked(0) then Qid(items - 1, 0, items) else EMPTY)
    {
      InitialList(procs, qs, items, loc);
    }
  }

  lemma {:induction false} InitialSpace(procs: nat, qs: nat, items: nat, nx: seq<nat>, ls: seq<nat>)
    requires qs > 0 && 0 < items == |nx| <= NONE && InitialLinks(nx, ls)
    ensures Complete(InitialLists(procs, qs, items), procs, qs)
    ensures Space(InitialRecords(procs, qs, items), InitialLists(procs, qs, items), nx, ls,
                  seq(items, _ => At(Locked(0))))
  {
    hide InitialLists, InitialRecords, Owned, AllLinked, Only;
    var lists, rec := InitialLists(procs, qs, items), InitialRecords(procs, qs, items);
    InitialOnly(procs, qs, items);
    OnlyOwned(lists, rec, items);
    OnlyLinked(lists, rec, items, nx, ls);
  }

  /** The first pull from a new queue 0 is always a partial refill. */
  lemma {:induction false} FirstPullStale(p: nat, procs: nat, qs: nat, items: nat, max: nat)
    requires qs > 2 && 0 < max < items && p < procs
    ensures Complete(InitialLists(procs, qs, items), procs, qs)
    ensures HitBy(InitialLists(procs, qs, items), FlushedInto(p, 0), procs, qs, max) == 0
    ensures Busy(After(InitialLists(procs, qs, items), FlushedInto(p, 0), procs, qs, max), 0)
  {
    hide DrainLists, InitialLists, AllLocs;
    InitialOnly(procs, qs, items);
    var ls := InitialLists(procs, qs, items);
    assert Enabled(ls, FlushedInto(p, 0), procs, qs);
    InitialList(procs, qs, items, Locked(0));
    InitialList(procs, qs, items, Pull(p, 0));
    InitialList(procs, qs, items, Push(p, 0));
    DrainEffect(ls, p, qs, Locked(0));
    DrainEffect(ls, p, qs, Pull(p, 0));
    assert Upto(items) + [] == Upto(items);
  }

  class Queues {
    const procs: nat
    const qs: nat
    const items: nat
    const max: nat
    const next: array<nat>
    const last: array<nat>
    var rec: map<Loc, Qid>
    ghost var lists: Lists
    ghost var owner: seq<Place>

    ghost predicate Valid()
      reads this, next, last
    {
      && next != last && next.Length == items && max > 0 && qs <= NONE
      && Complete(lists, procs, qs) && Space(rec, lists, next[..], last[..], owner)
    }

    /** shf_q_new: every item is on locked queue 0, in order; all batches are empty. */
    constructor (procs: nat, qs: nat, items: nat, max: nat)
      requires 2 < qs <= NONE && items > 1 && 0 < max < items <= NONE
      ensures Valid() && fresh(next) && fresh(last)
      ensures this.procs == procs && this.qs == qs && this.items == items && this.max == max
      ensures lists == InitialLists(procs, qs, items) && owner == seq(items, _ => At(Locked(0)))
      ensures forall loc :: loc in lists ==> lists[loc] == if loc == Locked(0) then seq(items, i => i) else []
      ensures forall q: nat :: !StaleTail(Snap(), q)
    {
      this.procs, this.qs, this.items, this.max := procs, qs, items, max;
      var nx, ls := new nat[items], new nat[items];
      for i := 0 to items
        invariant forall k :: 0 <= k < i ==> nx[k] == k + 1
        invariant forall k :: 0 < k < i ==> ls[k] == k - 1
      {
        ls[i] := if i == 0 then NONE else i - 1;
        nx[i] := i + 1;
      }
      ls[0] := NONE;
      nx[items - 1] := NONE;
      next, last := nx, ls;
      rec := InitialRecords(procs, qs, items);
      lists := InitialLists(procs, qs, items);
      owner := seq(items, _ => At(Locked(0)));
      InitialSpace(procs, qs, items, nx[..], ls[..]);
    }

    ghost function Snap(): Shot
      reads this, next, last
    {
      Shot(lists, next[..], last[..], owner)
    }

    /** What the records say of a list. */
    lemma {:induction false} RecordOf(loc: Loc)
      requires Valid() && loc in lists
      ensures loc in rec && rec[loc].size == |lists[loc]| && InRange(lists[loc], items)
      ensures rec[loc].head != NONE ==> rec[loc].head < items
      ensures lists[loc] != [] ==> rec[loc].tail == lists[loc][0] && rec[loc].head == lists[loc][|lists[loc]| - 1]
    {
      BatchTail(rec[loc], lists[loc], next[..], last[..]);
    }

    /** Links an item in hand to the head of a push batch; no lock, no other process's links. */
    method Link(p: nat, q: nat, x: nat)
      requires Valid() && p < procs && q < qs && x < items && owner[x] == Hand(p)
      modifies this`rec, this`lists, this`owner, next, last
      ensures Valid() && lists == After(old(lists), Linked(p, q, x), procs, qs, max)
      ensures owner == old(owner)[x := At(Push(p, q))]
      ensures Tails(old(Snap()), Snap(), -1)
      ensures forall y :: 0 <= y < items && (next[y] != old(next[y]) || last[y] != old(last[y])) ==>
                Private(old(owner)[y], p)
    {
      hide Chain, AllLinked, Owned;
      var loc := Push(p, q);
      ghost var nx, ls := next[..], last[..];
      RecordOf(loc);
      LinkSpace(rec, lists, nx, ls, owner, loc, x);
      HeadOwner(loc);
      var r := rec[loc];
      last[x] := r.head;
      next[x] := NONE;
      if r.head == NONE {
        rec := rec[loc := Qid(x, x, r.size + 1)];
      } else {
        rec := rec[loc := Qid(x, r.tail, r.size + 1)];
        next[r.head] := x;
      }
      assert next[..] == MovedNext(nx, r, x, x);
      assert last[..] == ls[x := r.head];
      lists := LinkLists(lists, p, q, x);
      owner := owner[x := At(loc)];
      LinkTails(old(Snap()), Snap(), loc, x, r.head);
    }

    lemma {:induction false} HeadOwner(loc: Loc)
      requires Valid() && loc in lists
      ensures |owner| == items && loc in rec
      ensures rec[loc].head != NONE ==> rec[loc].head < items && owner[rec[loc].head] == At(loc)
      ensures lists[loc] != [] ==> rec[loc].tail < items && owner[rec[loc].tail] == At(loc)
    {
      RecordOf(loc);
      var xs := lists[loc];
      if xs != [] { assert owner[xs[|xs| - 1]] == At(loc) && owner[xs[0]] == At(loc); }
    }

    /** Unlinks the tail of a pull batch into the process's hand; no lock, no other process's links. */
    method Unlink(p: nat, q: nat) returns (x: nat)
      requires Valid() && p < procs && q < qs && lists[Pull(p, q)] != []
      modifies this`rec, this`lists, this`owner, last
      ensures Valid() && x == old(lists)[Pull(p, q)][0] && x < items
      ensures lists == After(old(lists), Unlinked(p, q), procs, qs, max) && owner == old(owner)[x := Hand(p)]
      ensures forall y :: 0 <= y < items && last[y] != old(last[y]) ==> Private(old(owner)[y], p)
      ensures Tails(old(Snap()), Snap(), -1)
    {
      hide Chain, AllLinked, Owned;
      var loc := Pull(p, q);
      ghost var nx, ls := next[..], last[..];
      RecordOf(loc);
      TakeSpace(rec, lists, nx, ls, owner, loc, p);
      SecondOwner(loc);
      var r := rec[loc];
      x := r.tail;
      var after := next[x];
      if after == NONE {
        rec := rec[loc := Qid(NONE, after, r.size - 1)];
      } else {
        rec := rec[loc := Qid(r.head, after, r.size - 1)];
        last[after] := NONE;
      }
      assert last[..] == TakenNext(ls, after);
      lists := UnlinkLists(lists, p, q);
      owner := owner[x := Hand(p)];
      TakeTails(old(Snap()), Snap(), loc, after);
    }

    lemma {:induction false} SecondOwner(loc: Loc)
      requires Valid() && loc in lists && lists[loc] != []
      ensures loc in rec && rec[loc].tail < items && |owner| == items
      ensures next[rec[loc].tail] != NONE ==> next[rec[loc].tail] < items && owner[next[rec[loc].tail]] == At(loc)
    {
      RecordOf(loc);
      var xs := lists[loc];
      assert Distinct(xs) && Chain(rec[loc], xs, next[..], last[..]);
      TakeTail(next[..], last[..], rec[loc], xs);
      if |xs| > 1 { assert owner[xs[1]] == At(loc); }
    }

    /** Moves the first n items of one list to the head of another by relinking the ends. */
    method MoveEnds(a: Loc, b: Loc, n: nat, tail: nat, head: nat)
      requires Valid() && a in lists && b in lists && a != b
      requires 0 < n <= |lists[b]| && (b.Locked? || n == |lists[b]|)
      requires tail == lists[b][0] && head == lists[b][n - 1]
      modifies this`rec, this`lists, this`owner, next, last
      ensures Valid() && lists == MoveLists(old(lists), a, b, n) && SameHands(old(owner), owner)
      ensures forall p: nat :: Reaches(a, p) && Reaches(b, p) ==> OwnOnly(p, old(Snap()), Snap())
      ensures Tails(old(Snap()), Snap(), HitByMove(old(lists), b, n))
    {
      hide Space, MoveLists, Placed, OwnOnly, Tails, MoveShot;
      ghost var r, s := rec, Snap();
      Relink(a, b, n, tail, head);
      forall p: nat | Reaches(a, p) && Reaches(b, p) ensures OwnOnly(p, s, Snap()) {
        MoveOwnOnly(r, s, a, b, n, p);
      }
      MoveTails(r, s, a, b, n);
    }

    /** The stores of a move. */
    method Relink(a: Loc, b: Loc, n: nat, tail: nat, head: nat)
      requires Valid() && a in lists && b in lists && a != b
      requires 0 < n <= |lists[b]| && (b.Locked? || n == |lists[b]|)
      requires tail == lists[b][0] && head == lists[b][n - 1]
      modifies this`rec, this`lists, this`owner, next, last
      ensures Valid() && lists == MoveLists(old(lists), a, b, n) && SameHands(old(owner), owner)
      ensures Movable(old(rec), old(Snap()), a, b, n) && Snap() == MoveShot(old(rec), old(Snap()), a, b, n)
    {
      hide Chain, AllLinked, Owned, MoveLists;
      ghost var nx, ls := next[..], last[..];
      RecordOf(a);
      RecordOf(b);
      MoveSpace(rec, lists, nx, ls, owner, a, b, n);
      ListedItems(b);
      MoveKeys(lists, a, b, n);
      PlacedHands(owner, lists[b][..n], a);
      owner := Placed(owner, lists[b][..n], At(a));
      lists := MoveLists(lists, a, b, n);
      var to, from := rec[a], rec[b];
      var rest := next[head];
      Hook(to, tail, head);
      rec := rec[a := Qid(head, if to.head == NONE then tail else to.tail, to.size + n)];
      if from.size - n > 0 {
        rec := rec[b := Qid(from.head, rest, from.size - n)];
      } else {
        rec := rec[b := EMPTY];
      }
    }

    /** Hooks a stretch of items, from tail to head, to the head of a list. */
    method Hook(to: Qid, tail: nat, head: nat)
      requires tail < last.Length && head < next.Length && next != last
      requires to.head != NONE ==> to.head < next.Length
      modifies next, last
      ensures next[..] == MovedNext(old(next[..]), to, tail, head)
      ensures last[..] == old(last[..])[tail := to.head]
    {
      last[tail] := to.head;
      next[head] := NONE;
      if to.head != NONE {
        next[to.head] := tail;
      }
    }

    lemma {:induction false} ListedItems(loc: Loc)
      requires Valid() && loc in lists
      ensures forall k :: 0 <= k < |lists[loc]| ==> lists[loc][k] < |owner| && owner[lists[loc][k]].At?
    {
      forall k | 0 <= k < |lists[loc]| ensures lists[loc][k] < |owner| && owner[lists[loc][k]].At? {
        assert Distinct(lists[loc]) && owner[lists[loc][k]] == At(loc);
      }
    }

    /** Walks a locked queue to its n-th item. */
    method Walk(loc: Loc, n: nat) returns (head: nat)
      requires Valid() && loc in lists && 0 < n <= |lists[loc]|
      ensures head == lists[loc][n - 1]
    {
      RecordOf(loc);
      head := rec[loc].tail;
      assert Chain(rec[loc], lists[loc], next[..], last[..]);
      for i := 0 to n - 1
        invariant head == lists[loc][i]
      {
        assert next[..][lists[loc][i]] == lists[loc][i + 1];
        head := next[head];
      }
    }

    /** One push batch of the process goes to its locked queue. */
    method DrainBatch(p: nat, q: nat)
      requires Valid() && p < procs && q < qs
      modifies this`rec, this`lists, this`owner, next, last
      ensures Valid() && lists == DrainOne(old(lists), p, q) && Framed(p, old(Snap()), Snap(), -1)
    {
      hide Space, DrainOne, MoveLists, OwnOnly, Tails;
      var loc := Push(p, q);
      RecordOf(loc);
      if rec[loc].size > 0 {
        MoveAll(lists, p, q);
        MoveEnds(Locked(q), loc, rec[loc].size, rec[loc].tail, rec[loc].head);
      } else {
        DrainNothing(lists, p, q);
        Same(p);
      }
    }

    /** The first half of a flush: every push batch of the process goes to its locked queue. */
    method Drain(p: nat)
      requires Valid() && p < procs
      modifies this`rec, this`lists, this`owner, next, last
      ensures Valid() && lists == DrainLists(old(lists), p, qs) && Framed(p, old(Snap()), Snap(), -1)
    {
      hide Space, Framed;
      ghost var s := Snap();
      Same(p);
      for q := 0 to qs
        invariant Valid() && DrainedTo(s.lists, lists, p, q) && Framed(p, s, Snap(), -1)
      {
        DrainNext(p, q, s);
      }
    }

    method DrainNext(p: nat, q: nat, ghost s: Shot)
      requires Valid() && p < procs && q < qs && DrainedTo(s.lists, lists, p, q) && Framed(p, s, Snap(), -1)
      requires Complete(s.lists, procs, qs)
      modifies this`rec, this`lists, this`owner, next, last
      ensures Valid() && DrainedTo(s.lists, lists, p, q + 1) && Framed(p, s, Snap(), -1)
    {
      hide Space, DrainOne, Framed, StillBusy;
      ghost var s' := Snap();
      DrainBatch(p, q);
      DrainBusy(s.lists, p, q);
      FramedTwice(p, s, s', Snap(), -1);
    }

    /** The second half of a flush: fills the pull batch from the locked queue, up to `max` items. */
    method Fill(p: nat, q: nat)
      requires Valid() && p < procs && q < qs
      modifies this`rec, this`lists, this`owner, next, last
      ensures Valid() && Filled(p, q, max, old(Snap()), Snap())
    {
      hide Space, OwnOnly, Tails;
      Same(p);
      RecordOf(Pull(p, q));
      RecordOf(Locked(q));
      var room := if rec[Pull(p, q)].size < max then max - rec[Pull(p, q)].size else 0;
      var n := if rec[Locked(q)].size < room then rec[Locked(q)].size else room;
      if n > 0 {
        var head := Walk(Locked(q), n);
        MoveEnds(Pull(p, q), Locked(q), n, rec[Locked(q)].tail, head);
      } else {
        RefillNothing(lists, p, q, max);
      }
    }

    /** shf_q_flush: under the lock, drains the push batches, then fills one pull batch if asked. No item changes hands,
        no link of another process's items is touched, and a queue's tail becomes stale exactly by a partial fill. */
    method Flush(p: nat, pullQid: nat)
      requires Valid() && p < procs && (pullQid == NONE || pullQid < qs)
      modifies this`rec, this`lists, this`owner, next, last
      ensures Valid() && lists == After(old(lists), FlushOf(p, pullQid), procs, qs, max)
      ensures SameHands(old(owner), owner) && OwnOnly(p, old(Snap()), Snap())
      ensures Tails(old(Snap()), Snap(), HitBy(old(lists), FlushOf(p, pullQid), procs, qs, max))
    {
      hide Space, OwnOnly, Tails, SameHands, StillBusy, DrainLists, RefillLists, Partial;
      ghost var s := Snap();
      Drain(p);
      if pullQid != NONE {
        ghost var s' := Snap();
        Fill(p, pullQid);
        DrainBusy(s.lists, p, qs);
        FramedTwice(p, s, s', Snap(), if Partial(s'.lists, p, pullQid, max) then pullQid else -1);
      }
    }

    lemma {:induction false} Same(p: nat)
      requires Valid()
      ensures Framed(p, Snap(), Snap(), -1)
    {
    }

    /** Flush, for the process's views. */
    method FlushKeepingViews(p: nat, pullQid: nat)
      requires Valid() && p < procs && (pullQid == NONE || pullQid < qs)
      modifies this`rec, this`lists, this`owner, next, last
      ensures Valid() && SameHands(old(owner), owner) && OthersKept(old(lists), lists, p)
      ensures ViewsOf(lists, p, procs, qs) == ViewsOf(old(lists), p, procs, qs)
      ensures pullQid != NONE && lists[Pull(p, pullQid)] == [] ==> ViewsOf(lists, p, procs, qs)[pullQid] == []
      ensures lists == After(old(lists), FlushOf(p, pullQid), procs, qs, max)
    {
      hide Space, After, View;
      OthersStep(lists, FlushOf(p, pullQid), procs, qs, max);
      FlushedViews(lists, p, pullQid, procs, qs, max);
      Flush(p, pullQid);
    }

    /** Takes the tail of the pull batch, or NONE if it is empty. */
    method TakeTailItem(p: nat, q: nat) returns (x: nat)
      requires Valid() && p < procs && q < qs
      requires lists[Pull(p, q)] == [] ==> ViewsOf(lists, p, procs, qs)[q] == []
      modifies this`rec, this`lists, this`owner, last
      ensures lists == TakenLists(old(lists), p, q, procs, qs, max)
      ensures Valid() && OthersKept(old(lists), lists, p) && HandsMoved(old(owner), owner, p, NONE, x)
      ensures (x, ViewsOf(lists, p, procs, qs)) == PullView(ViewsOf(old(lists), p, procs, qs), q)
    {
      hide Space, After;
      RecordOf(Pull(p, q));
      OwnerRange();
      if rec[Pull(p, q)].size == 0 {
        x := NONE;
      } else {
        OthersStep(lists, Unlinked(p, q), procs, qs, max);
        UnlinkedViews(lists, p, q, procs, qs, max);
        HeadOwner(Pull(p, q));
        x := Unlink(p, q);
      }
    }

    lemma {:induction false} OwnerRange()
      requires Valid()
      ensures |owner| == items && (qs > 0 ==> items <= NONE)
    {
      if qs > 0 {
        assert Locked(0) in lists;
        assert Chain(rec[Locked(0)], lists[Locked(0)], next[..], last[..]);
      }
    }

    /** shf_q_pull_tail. */
    method PullTail(p: nat, q: nat) returns (x: nat)
      requires Valid() && p < procs && q < qs
      modifies this`rec, this`lists, this`owner, next, last
      ensures lists == PulledLists(old(lists), p, q, procs, qs, max)
      ensures Valid() && OthersKept(old(lists), lists, p) && HandsMoved(old(owner), owner, p, NONE, x)
      ensures (x, ViewsOf(lists, p, procs, qs)) == PullView(ViewsOf(old(lists), p, procs, qs), q)
    {
      hide Space, After, View, PullView;
      RecordOf(Pull(p, q));
      if rec[Pull(p, q)].size == 0 {
        FlushKeepingViews(p, q);
      }
      x := TakeTailItem(p, q);
    }

    /** Links an item, for the process's views. */
    method Give(p: nat, q: nat, x: nat)
      requires Valid() && p < procs && q < qs && (x == NONE || (x < items && owner[x] == Hand(p)))
      modifies this`rec, this`lists, this`owner, next, last
      ensures lists == if x == NONE then old(lists) else After(old(lists), Linked(p, q, x), procs, qs, max)
      ensures Valid() && OthersKept(old(lists), lists, p) && HandsMoved(old(owner), owner, p, x, NONE)
      ensures ViewsOf(lists, p, procs, qs) == PushView(ViewsOf(old(lists), p, procs, qs), q, x)
    {
      hide Space, After, View;
      OwnerRange();
      if x != NONE {
        OthersStep(lists, Linked(p, q, x), procs, qs, max);
        LinkedViews(lists, p, q, x, procs, qs, max);
        Link(p, q, x);
      }
    }

    /** shf_q_push_head. */
    method PushHead(p: nat, q: nat, x: nat)
      requires Valid() && p < procs && q < qs && (x == NONE || (x < items && owner[x] == Hand(p)))
      modifies this`rec, this`lists, this`owner, next, last
      ensures lists == PushedLists(old(lists), p, q, x, procs, qs, max)
      ensures Valid() && OthersKept(old(lists), lists, p) && HandsMoved(old(owner), owner, p, x, NONE)
      ensures ViewsOf(lists, p, procs, qs) == PushView(ViewsOf(old(lists), p, procs, qs), q, x)
    {
      hide Space, After, View, PushView;
      Give(p, q, x);
      RecordOf(Push(p, q));
      if x != NONE && rec[Push(p, q)].size >= max {
        FlushKeepingViews(p, NONE);
      }
    }

    /** shf_q_push_head_pull_tail: one flush at most, the same as a push and then a pull. */
    method PushHeadPullTail(p: nat, pushQid: nat, x: nat, pullQid: nat) returns (y: nat)
      requires Valid() && p < procs && pushQid < qs && pullQid < qs && (x == NONE || (x < items && owner[x] == Hand(p)))
      modifies this`rec, this`lists, this`owner, next, last
      ensures lists == HybridLists(old(lists), p, pushQid, x, pullQid, procs, qs, max)
      ensures Valid() && OthersKept(old(lists), lists, p) && HandsMoved(old(owner), owner, p, x, y)
      ensures (y, ViewsOf(lists, p, procs, qs))
              == PullView(PushView(ViewsOf(old(lists), p, procs, qs), pushQid, x), pullQid)
    {
      hide Space, After, View, PushView, PullView;
      OwnerRange();
      Give(p, pushQid, x);
      RecordOf(Push(p, pushQid));
      RecordOf(Pull(p, pullQid));
      if rec[Push(p, pushQid)].size >= max || rec[Pull(p, pullQid)].size == 0 {
        FlushKeepingViews(p, pullQid);
      }
      y := TakeTailItem(p, pullQid);
    }

    /** One atomic step of some process. */
    method Step(e: Event, ghost held: Held, ghost held': Held)
      requires Valid() && Enabled(lists, e, procs, qs) && Agree(held, owner) && Handled(lists, e, held, held')
      requires e.Linked? ==> e.x < items
      modifies this`rec, this`lists, this`owner, next, last
      ensures Valid() && lists == After(old(lists), e, procs, qs, max) && Agree(held', owner)
      ensures Tails(old(Snap()), Snap(), HitBy(old(lists), e, procs, qs, max))
    {
      hide Space, After, Tails, OwnOnly, DrainLists, Partial;
      OwnerRange();
      match e
      case Linked(p, q, x) => Link(p, q, x);
      case Unlinked(p, q) => var x := Unlink(p, q);
      case Flushed(p) => Flush(p, NONE);
      case FlushedInto(p, q) => Flush(p, q);
    }

    /** Any interleaving of the processes' atomic steps: the links and records keep describing the lists of the run,
        and every item stays in exactly one list or hand. */
    method Interleave(es: seq<Event>, ghost run: seq<Lists>, ghost hands: seq<Held>)
      requires Valid() && Run(run, hands, es, procs, qs, items, max) && lists == run[0] && Agree(hands[0], owner)
      modifies this`rec, this`lists, this`owner, next, last
      ensures Valid() && lists == run[|es|] && Agree(hands[|es|], owner)
      ensures forall q: nat :: Busy(lists, q) ==>
                (StaleTail(Snap(), q) <==> Stale(run, es, |es|, q, StaleTail(old(Snap()), q), procs, qs, max))
    {
      hide Space, After, Handled, Agree, Enabled, StaleTail, Busy, HitBy, Stale;
      StaleAtFirst(run, es);
      for i := 0 to |es|
        invariant Valid() && lists == run[i] && Agree(hands[i], owner)
        invariant forall q: nat ::
                    StaleTail(Snap(), q) <==> Stale(run, es, i, q, StaleTail(old(Snap()), q), procs, qs, max)
      {
        assert Enabled(run[i], es[i], procs, qs) && run[i + 1] == After(run[i], es[i], procs, qs, max);
        Step(es[i], hands[i], hands[i + 1]);
        forall q: nat
          ensures StaleTail(Snap(), q) <==> Stale(run, es, i + 1, q, StaleTail(old(Snap()), q), procs, qs, max)
        {
          StaleNext(run, es, i, q, StaleTail(old(Snap()), q), procs, qs, max);
        }
      }
    }

    /** At the start of a run. */
    lemma {:induction false} StaleAtFirst(run: seq<Lists>, es: seq<Event>)
      requires Interleaving(run, es, procs, qs, max) && lists == run[0]
      ensures forall q: nat :: StaleTail(Snap(), q) <==> Stale(run, es, 0, q, StaleTail(Snap(), q), procs, qs, max)
    {
    }
  }

  /** A queue made and pulled from for the first time: the locked tail has a stale back link. */
  method FirstPull(procs: nat, qs: nat, items: nat, max: nat, p: nat) returns (q: Queues)
    requires 2 < qs <= NONE && items > 1 && 0 < max < items <= NONE && p < procs
    ensures q.Valid() && StaleTail(q.Snap(), 0)
  {
    q := new Queues(procs, qs, items, max);
    FirstPullStale(p, procs, qs, items, max);
    q.Flush(p, 0);
  }
}
