/**
  What the steps of one process do to the rest of the queues' memory: a flush touches only links of its own items and
  of the locked queues, and it decides which locked queues have a tail with a stale back link.
 */
module QueueFrames {
  import opened QueueLists
  import opened QueueLinks

  /** The lists, the links and the owners at one moment. */
  datatype Shot = Shot(lists: Lists, nx: seq<nat>, ls: seq<nat>, owner: seq<Place>)

  ghost predicate Sized(s: Shot) { |s.nx| == |s.ls| == |s.owner| }

  // ----- whose links are touched -----

  /** A list that process p works on while it holds the lock. */
  predicate Reaches(loc: Loc, p: nat) { loc.Locked? || loc.p == p }

  predicate Reached(place: Place, p: nat) { place.At? && Reaches(place.loc, p) }

  /** From s to s' only links of items that process p reaches have changed, and it reaches the same items. */
  ghost predicate OwnOnly(p: nat, s: Shot, s': Shot) {
    && Sized(s) && Sized(s') && |s.owner| == |s'.owner|
    && (forall y :: 0 <= y < |s.owner| ==> (Reached(s.owner[y], p) <==> Reached(s'.owner[y], p)))
    && (forall y :: 0 <= y < |s.owner| && (s.nx[y] != s'.nx[y] || s.ls[y] != s'.ls[y]) ==> Reached(s.owner[y], p))
  }

  lemma {:induction false} OwnOnlyTwice(p: nat, s: Shot, s': Shot, s'': Shot)
    requires OwnOnly(p, s, s') && OwnOnly(p, s', s'')
    ensures OwnOnly(p, s, s'')
  {
  }

  /** The state after the first n items of list b went to the head of list a. */
  ghost function MoveShot(rec: map<Loc, Qid>, s: Shot, a: Loc, b: Loc, n: nat): Shot
    requires a in s.lists && b in s.lists && a != b && a in rec && 0 < n <= |s.lists[b]| && Sized(s)
    requires s.lists[b][0] < |s.nx| && s.lists[b][n - 1] < |s.nx| && (rec[a].head != NONE ==> rec[a].head < |s.nx|)
  {
    var ys := s.lists[b];
    Shot(MoveLists(s.lists, a, b, n), MovedNext(s.nx, rec[a], ys[0], ys[n - 1]), s.ls[ys[0] := rec[a].head],
         Placed(s.owner, ys[..n], At(a)))
  }

  ghost predicate CanMoveItems(rec: map<Loc, Qid>, s: Shot, a: Loc, b: Loc, n: nat) {
    && Space(rec, s.lists, s.nx, s.ls, s.owner) && a in s.lists && b in s.lists && a != b && 0 < n <= |s.lists[b]|
  }

  /** The ends that a move relinks. */
  lemma {:induction false} MoveEndsOf(rec: map<Loc, Qid>, s: Shot, a: Loc, b: Loc, n: nat)
    requires CanMoveItems(rec, s, a, b, n)
    ensures Sized(s) && a in rec && (rec[a].head == NONE <==> s.lists[a] == [])
    ensures rec[a].head != NONE ==> rec[a].head < |s.nx| && s.owner[rec[a].head] == At(a)
    ensures forall k :: 0 <= k < |s.lists[b]| ==> s.lists[b][k] < |s.nx| && s.owner[s.lists[b][k]] == At(b)
  {
    var xs, ys := s.lists[a], s.lists[b];
    BatchTail(rec[a], xs, s.nx, s.ls);
    assert InRange(ys, |s.owner|) && InRange(xs, |s.owner|);
    if xs != [] { assert s.owner[xs[|xs| - 1]] == At(a); }
  }

  lemma {:induction false} MoveOwnOnly(rec: map<Loc, Qid>, s: Shot, a: Loc, b: Loc, n: nat, p: nat)
    requires CanMoveItems(rec, s, a, b, n) && Reaches(a, p) && Reaches(b, p)
    ensures Sized(s) && a in rec && (rec[a].head != NONE ==> rec[a].head < |s.nx|)
    ensures s.lists[b][0] < |s.nx| && s.lists[b][n - 1] < |s.nx|
    ensures OwnOnly(p, s, MoveShot(rec, s, a, b, n))
  {
    hide Space;
    MoveEndsOf(rec, s, a, b, n);
  }

  // ----- stale back links -----

  /** The tail of locked queue q is linked back to an item. */
  ghost predicate StaleTail(s: Shot, q: nat) {
    && Locked(q) in s.lists && s.lists[Locked(q)] != []
    && s.lists[Locked(q)][0] < |s.ls| && s.ls[s.lists[Locked(q)][0]] != NONE
  }

  ghost predicate Busy(ls: Lists, q: nat) { Locked(q) in ls && ls[Locked(q)] != [] }

  /** From s to s' the tail of a queue that is not empty becomes stale by a partial refill of that queue, `hit`, and in
      no other way, and stays so while the queue is not empty; -1 stands for no queue. */
  ghost predicate Tails(s: Shot, s': Shot, hit: int) {
    forall q: nat :: StaleTail(s', q) <==> Busy(s'.lists, q) && (q == hit || StaleTail(s, q))
  }

  /** No queue has become empty. */
  ghost predicate StillBusy(ls: Lists, ls': Lists) { forall q: nat :: Busy(ls, q) ==> Busy(ls', q) }

  lemma {:induction false} TailsTwice(s: Shot, s': Shot, s'': Shot, hit: int)
    requires Tails(s, s', -1) && Tails(s', s'', hit) && StillBusy(s.lists, s'.lists)
    ensures Tails(s, s'', hit)
  {
  }

  /** The queue that a move of n items off list b leaves with a stale tail. */
  function HitByMove(ls: Lists, b: Loc, n: nat): int
    requires b in ls
  {
    if b.Locked? && n < |ls[b]| then b.q else -1
  }

  lemma {:induction false} MoveTail(rec: map<Loc, Qid>, s: Shot, a: Loc, b: Loc, n: nat, q: nat)
    requires CanMoveItems(rec, s, a, b, n)
    ensures Sized(s) && a in rec && (rec[a].head != NONE ==> rec[a].head < |s.nx|)
    ensures s.lists[b][0] < |s.nx| && s.lists[b][n - 1] < |s.nx|
    ensures var s' := MoveShot(rec, s, a, b, n);
            StaleTail(s', q) <==> Busy(s'.lists, q) && (q == HitByMove(s.lists, b, n) || StaleTail(s, q))
  {
    hide Space, Chain, Placed, MovedNext;
    MoveEndsOf(rec, s, a, b, n);
    var loc := Locked(q);
    if loc in s.lists {
      if loc == b {
        if n < |s.lists[b]| { SecondBack(rec, s, b, n); }
      } else {
        TailOwner(rec, s, loc);
      }
    }
  }

  /** Moving items: a queue's tail becomes stale exactly when some but not all of its items go. */
  lemma {:induction false} MoveTails(rec: map<Loc, Qid>, s: Shot, a: Loc, b: Loc, n: nat)
    requires CanMoveItems(rec, s, a, b, n)
    ensures Sized(s) && a in rec && (rec[a].head != NONE ==> rec[a].head < |s.nx|)
    ensures s.lists[b][0] < |s.nx| && s.lists[b][n - 1] < |s.nx|
    ensures Tails(s, MoveShot(rec, s, a, b, n), HitByMove(s.lists, b, n))
  {
    hide CanMoveItems, MoveShot, StaleTail, Busy;
    MoveTail(rec, s, a, b, n, 0);
    forall q: nat { MoveTail(rec, s, a, b, n, q); }
  }

  lemma {:induction false} TailOwner(rec: map<Loc, Qid>, s: Shot, loc: Loc)
    requires Space(rec, s.lists, s.nx, s.ls, s.owner) && loc in s.lists
    ensures Sized(s)
    ensures s.lists[loc] != [] ==> s.lists[loc][0] < |s.owner| && s.owner[s.lists[loc][0]] == At(loc)
  {
    assert InRange(s.lists[loc], |s.owner|);
  }

  /** Interior back links are correct, so an item inside a list is linked back to the one before it. */
  lemma {:induction false} SecondBack(rec: map<Loc, Qid>, s: Shot, b: Loc, n: nat)
    requires Space(rec, s.lists, s.nx, s.ls, s.owner) && b in s.lists && 0 < n < |s.lists[b]|
    ensures var ys := s.lists[b];
            && ys[n] < |s.ls| && s.ls[ys[n]] == ys[n - 1] != NONE && ys[n] != ys[0]
  {
    assert Distinct(s.lists[b]) && Chain(rec[b], s.lists[b], s.nx, s.ls);
  }

  lemma {:induction false} LinkTails(s: Shot, s': Shot, loc: Loc, x: nat, h: nat)
    requires Owned(s.lists, s.owner) && Sized(s) && x < |s.owner| && s.owner[x].Hand? && !loc.Locked? && loc in s.lists
    requires s'.lists == s.lists[loc := s.lists[loc] + [x]] && s'.ls == s.ls[x := h]
    ensures Tails(s, s', -1)
  {
    forall q: nat | Busy(s.lists, q)
      ensures s.lists[Locked(q)][0] < |s.owner| && s.owner[s.lists[Locked(q)][0]] == At(Locked(q))
    {
      assert InRange(s.lists[Locked(q)], |s.owner|);
    }
  }

  lemma {:induction false} TakeTails(s: Shot, s': Shot, loc: Loc, y: nat)
    requires Owned(s.lists, s.owner) && Sized(s) && !loc.Locked? && loc in s.lists && s.lists[loc] != []
    requires y != NONE ==> y < |s.owner| && s.owner[y] == At(loc)
    requires s'.lists == s.lists[loc := s.lists[loc][1..]] && s'.ls == TakenNext(s.ls, y)
    ensures Tails(s, s', -1)
  {
    forall q: nat | Busy(s.lists, q)
      ensures s.lists[Locked(q)][0] < |s.owner| && s.owner[s.lists[Locked(q)][0]] == At(Locked(q))
    {
      assert InRange(s.lists[Locked(q)], |s.owner|);
    }
  }

  /** A refill takes some but not all of a locked queue. */
  predicate Partial(ls: Lists, p: nat, q: nat, max: nat)
    requires Pull(p, q) in ls && Locked(q) in ls
  {
    0 < Refill(|ls[Pull(p, q)]|, |ls[Locked(q)]|, max) < |ls[Locked(q)]|
  }

  /** The queue that an event leaves with a stale tail; its caller can tell from the lists. */
  function HitBy(ls: Lists, e: Event, procs: nat, qs: nat, max: nat): int
    requires Complete(ls, procs, qs) && Enabled(ls, e, procs, qs)
  {
    if e.FlushedInto? && Partial(DrainLists(ls, e.p, qs), e.p, e.q, max) then e.q else -1
  }

  // ----- over a run -----

  ghost predicate BusyFrom(run: seq<Lists>, k: nat, i: nat, q: nat) {
    forall j :: k <= j <= i && j < |run| ==> Busy(run[j], q)
  }

  /** Before event i, queue q has not been empty since a partial refill hit it, or since the start if its tail was
      stale then. */
  ghost predicate Stale(run: seq<Lists>, es: seq<Event>, i: nat, q: nat, first: bool, procs: nat, qs: nat, max: nat)
    requires Interleaving(run, es, procs, qs, max) && i <= |es|
  {
    || (first && BusyFrom(run, 0, i, q))
    || exists k :: 0 <= k < i && HitBy(run[k], es[k], procs, qs, max) == q && BusyFrom(run, k + 1, i, q)
  }

  lemma {:induction false} StaleNext(run: seq<Lists>, es: seq<Event>, i: nat, q: nat, first: bool,
                                     procs: nat, qs: nat, max: nat)
    requires Interleaving(run, es, procs, qs, max) && i < |es|
    ensures Stale(run, es, i + 1, q, first, procs, qs, max) <==>
            && Busy(run[i + 1], q)
            && (HitBy(run[i], es[i], procs, qs, max) == q || Stale(run, es, i, q, first, procs, qs, max))
  {
    assert |run| == |es| + 1;
    hide HitBy, Busy, Interleaving;
    forall k: nat | k <= i ensures BusyFrom(run, k, i + 1, q) <==> BusyFrom(run, k, i, q) && Busy(run[i + 1], q) {
    }
    assert BusyFrom(run, i + 1, i + 1, q) <==> Busy(run[i + 1], q);
  }
}
