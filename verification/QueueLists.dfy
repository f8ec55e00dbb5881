/**
  The IPC queues as lists of items: locked queues shared by all processes, and for each process and
  queue an unlocked batch to push from and one to pull into. These are the effects of the atomic steps
  on the lists, and what follows for any interleaving of them.
 */
module QueueLists {

  /** Which list: a locked queue, or a process's push or pull batch for a queue. */
  datatype Loc = Locked(q: nat) | Push(p: nat, q: nat) | Pull(p: nat, q: nat)

  type Lists = map<Loc, seq<nat>>

  predicate InSpace(loc: Loc, procs: nat, qs: nat) {
    loc.q < qs && (loc.Push? || loc.Pull? ==> loc.p < procs)
  }

  ghost predicate Complete(ls: Lists, procs: nat, qs: nat) {
    forall loc :: loc in ls <==> InSpace(loc, procs, qs)
  }

  function Min(a: nat, b: nat): nat { if a < b then a else b }

  // ----- atomic steps -----

  /** A process links an item to the head of its push batch. */
  function LinkLists(ls: Lists, p: nat, q: nat, x: nat): Lists
    requires Push(p, q) in ls
  {
    ls[Push(p, q) := ls[Push(p, q)] + [x]]
  }

  /** A process unlinks the tail of its pull batch. */
  function UnlinkLists(ls: Lists, p: nat, q: nat): Lists
    requires Pull(p, q) in ls && ls[Pull(p, q)] != []
  {
    ls[Pull(p, q) := ls[Pull(p, q)][1..]]
  }

  /** One push batch goes to the head of its locked queue. */
  function DrainOne(ls: Lists, p: nat, q: nat): Lists
    requires Push(p, q) in ls && Locked(q) in ls
  {
    ls[Locked(q) := ls[Locked(q)] + ls[Push(p, q)]][Push(p, q) := []]
  }

  /** The push batches for queues below n, each onto its locked queue. */
  function DrainLists(ls: Lists, p: nat, n: nat): (r: Lists)
    requires forall q :: 0 <= q < n ==> Push(p, q) in ls && Locked(q) in ls
    ensures r.Keys == ls.Keys
  {
    if n == 0 then ls else DrainOne(DrainLists(ls, p, n - 1), p, n - 1)
  }

  /** How many items a flush moves into a pull batch. */
  function Refill(pulled: nat, locked: nat, max: nat): nat {
    Min(locked, if pulled < max then max - pulled else 0)
  }

  /** The first n items of a locked queue go to the head of a pull batch. */
  function RefillLists(ls: Lists, p: nat, q: nat, max: nat): Lists
    requires Pull(p, q) in ls && Locked(q) in ls
  {
    var n := Refill(|ls[Pull(p, q)]|, |ls[Locked(q)]|, max);
    ls[Pull(p, q) := ls[Pull(p, q)] + ls[Locked(q)][..n]][Locked(q) := ls[Locked(q)][n..]]
  }

  // ----- what a process sees of a queue -----

  /** Its pull batch, then the locked queue, then its push batch. */
  function View(ls: Lists, p: nat, q: nat): seq<nat>
    requires Pull(p, q) in ls && Locked(q) in ls && Push(p, q) in ls
  {
    ls[Pull(p, q)] + ls[Locked(q)] + ls[Push(p, q)]
  }

  ghost predicate Sees(ls: Lists, p: nat, qs: nat) {
    forall q :: 0 <= q < qs ==> Pull(p, q) in ls && Locked(q) in ls && Push(p, q) in ls
  }

  lemma {:induction false} DrainOneEffect(ls: Lists, p: nat, q: nat, loc: Loc)
    requires Push(p, q) in ls && Locked(q) in ls && loc in ls
    ensures DrainOne(ls, p, q).Keys == ls.Keys
    ensures DrainOne(ls, p, q)[loc] == if loc == Push(p, q) then []
                                       else if loc == Locked(q) then ls[loc] + ls[Push(p, q)]
                                       else ls[loc]
  {
  }

  /** What draining the queues below n leaves in each list. */
  lemma {:induction false} DrainEffect(ls: Lists, p: nat, n: nat, loc: Loc)
    requires forall q :: 0 <= q < n ==> Push(p, q) in ls && Locked(q) in ls
    requires loc in ls
    ensures loc in DrainLists(ls, p, n)
    ensures DrainLists(ls, p, n)[loc] == if loc.Push? && loc.p == p && loc.q < n then []
                                         else if loc.Locked? && loc.q < n then ls[loc] + ls[Push(p, loc.q)]
                                         else ls[loc]
    decreases n
  {
    hide DrainOne;
    if n > 0 {
      DrainEffect(ls, p, n - 1, loc);
      DrainEffect(ls, p, n - 1, Push(p, n - 1));
      DrainOneEffect(DrainLists(ls, p, n - 1), p, n - 1, loc);
    }
  }

  /** Draining and refilling move items along a process's view and change none of its views. */
  lemma {:induction false} DrainView(ls: Lists, p: nat, n: nat, qs: nat, q: nat)
    requires n <= qs && Sees(ls, p, qs) && q < qs
    ensures Sees(DrainLists(ls, p, n), p, qs) && View(DrainLists(ls, p, n), p, q) == View(ls, p, q)
  {
    hide DrainLists;
    DrainEffect(ls, p, n, Pull(p, q));
    DrainEffect(ls, p, n, Locked(q));
    DrainEffect(ls, p, n, Push(p, q));
  }

  lemma {:induction false} RefillView(ls: Lists, p: nat, q: nat, max: nat, qs: nat, k: nat)
    requires Sees(ls, p, qs) && q < qs && k < qs
    ensures Sees(RefillLists(ls, p, q, max), p, qs) && View(RefillLists(ls, p, q, max), p, k) == View(ls, p, k)
  {
    var n := Refill(|ls[Pull(p, q)]|, |ls[Locked(q)]|, max);
    assert ls[Locked(q)] == ls[Locked(q)][..n] + ls[Locked(q)][n..];
  }

  lemma {:induction false} LinkView(ls: Lists, p: nat, q: nat, x: nat, qs: nat, k: nat)
    requires Sees(ls, p, qs) && q < qs && k < qs
    ensures Sees(LinkLists(ls, p, q, x), p, qs)
    ensures View(LinkLists(ls, p, q, x), p, k) == if k == q then View(ls, p, k) + [x] else View(ls, p, k)
  {
  }

  lemma {:induction false} UnlinkView(ls: Lists, p: nat, q: nat, qs: nat, k: nat)
    requires Sees(ls, p, qs) && q < qs && k < qs && ls[Pull(p, q)] != []
    ensures Sees(UnlinkLists(ls, p, q), p, qs)
    ensures View(UnlinkLists(ls, p, q), p, k) == if k == q then View(ls, p, k)[1..] else View(ls, p, k)
    ensures ls[Pull(p, q)][0] == View(ls, p, q)[0]
  {
  }

  // ----- any interleaving with one pusher and one puller -----

  datatype Event =
    | Linked(p: nat, q: nat, x: nat)
    | Unlinked(p: nat, q: nat)
    | Flushed(p: nat)                        // shf_q_flush with no queue to pull from
    | FlushedInto(p: nat, q: nat)            // shf_q_flush with a queue to pull from

  ghost predicate Enabled(ls: Lists, e: Event, procs: nat, qs: nat) {
    && e.p < procs && (!e.Flushed? ==> e.q < qs)
    && (e.Unlinked? ==> Pull(e.p, e.q) in ls && ls[Pull(e.p, e.q)] != [])
  }

  function After(ls: Lists, e: Event, procs: nat, qs: nat, max: nat): (r: Lists)
    requires Complete(ls, procs, qs) && Enabled(ls, e, procs, qs)
    ensures r.Keys == ls.Keys
  {
    match e
    case Linked(p, q, x) => LinkLists(ls, p, q, x)
    case Unlinked(p, q) => UnlinkLists(ls, p, q)
    case Flushed(p) => DrainLists(ls, p, qs)
    case FlushedInto(p, q) => RefillLists(DrainLists(ls, p, qs), p, q, max)
  }

  /** Queue q between a pusher a and a puller b: what b still has to pull, in order. */
  function Pipe(ls: Lists, a: nat, b: nat, q: nat): seq<nat>
    requires Pull(b, q) in ls && Locked(q) in ls && Push(a, q) in ls
  {
    ls[Pull(b, q)] + ls[Locked(q)] + ls[Push(a, q)]
  }

  /** Only a pushes to q and only b pulls from it. */
  predicate Roles(e: Event, a: nat, b: nat, q: nat) {
    && (e.Linked? && e.q == q ==> e.p == a)
    && (e.Unlinked? && e.q == q ==> e.p == b)
    && (e.FlushedInto? && e.q == q ==> e.p == b)
  }

  /** No other process has items of queue q in a batch. */
  ghost predicate OnlyBatches(ls: Lists, a: nat, b: nat, q: nat) {
    && (forall p :: Push(p, q) in ls && p != a ==> ls[Push(p, q)] == [])
    && (forall p :: Pull(p, q) in ls && p != b ==> ls[Pull(p, q)] == [])
  }

  lemma {:induction false} PipeDrain(ls: Lists, p: nat, qs: nat, a: nat, b: nat, q: nat, procs: nat)
    requires Complete(ls, procs, qs) && p < procs && a < procs && b < procs && q < qs
    requires OnlyBatches(ls, a, b, q)
    ensures OnlyBatches(DrainLists(ls, p, qs), a, b, q)
    ensures Pipe(DrainLists(ls, p, qs), a, b, q) == Pipe(ls, a, b, q)
  {
    hide DrainLists;
    var r := DrainLists(ls, p, qs);
    forall o | Push(o, q) in r && o != a ensures r[Push(o, q)] == [] { DrainEffect(ls, p, qs, Push(o, q)); }
    forall o | Pull(o, q) in r && o != b ensures r[Pull(o, q)] == [] { DrainEffect(ls, p, qs, Pull(o, q)); }
    DrainEffect(ls, p, qs, Pull(b, q));
    DrainEffect(ls, p, qs, Locked(q));
    DrainEffect(ls, p, qs, Push(a, q));
    assert ls[Locked(q)] + [] == ls[Locked(q)];
  }

  lemma {:induction false} PipeRefill(ls: Lists, p: nat, k: nat, max: nat, a: nat, b: nat, q: nat)
    requires Pull(p, k) in ls && Locked(k) in ls && Pull(b, q) in ls && Locked(q) in ls && Push(a, q) in ls
    requires OnlyBatches(ls, a, b, q) && (k == q ==> p == b)
    ensures OnlyBatches(RefillLists(ls, p, k, max), a, b, q)
    ensures Pipe(RefillLists(ls, p, k, max), a, b, q) == Pipe(ls, a, b, q)
  {
    var n := Refill(|ls[Pull(p, k)]|, |ls[Locked(k)]|, max);
    assert ls[Locked(k)] == ls[Locked(k)][..n] + ls[Locked(k)][n..];
  }

  /** Every step keeps the pipe in order: a link appends, an unlink takes the first, flushes move nothing past
      anything. */
  lemma {:induction false} PipeStep(ls: Lists, e: Event, procs: nat, qs: nat, max: nat, a: nat, b: nat, q: nat)
    requires Complete(ls, procs, qs) && a < procs && b < procs && q < qs
    requires Enabled(ls, e, procs, qs) && Roles(e, a, b, q) && OnlyBatches(ls, a, b, q)
    ensures var r := After(ls, e, procs, qs, max);
            && Complete(r, procs, qs) && OnlyBatches(r, a, b, q)
            && if e.Linked? && e.q == q then Pipe(r, a, b, q) == Pipe(ls, a, b, q) + [e.x]
               else if e.Unlinked? && e.q == q then Pipe(ls, a, b, q) == [ls[Pull(b, q)][0]] + Pipe(r, a, b, q)
               else Pipe(r, a, b, q) == Pipe(ls, a, b, q)
  {
    hide DrainLists, RefillLists;
    match e
    case Linked(_, _, _) =>
    case Unlinked(_, _) =>
    case Flushed(p) => PipeDrain(ls, p, qs, a, b, q, procs);
    case FlushedInto(p, k) =>
      PipeDrain(ls, p, qs, a, b, q, procs);
      PipeRefill(DrainLists(ls, p, qs), p, k, max, a, b, q);
  }

  /** A run: the lists before each event, and after the last. */
  ghost predicate Interleaving(run: seq<Lists>, es: seq<Event>, procs: nat, qs: nat, max: nat) {
    && |run| == |es| + 1
    && (forall i :: 0 <= i < |run| ==> Complete(run[i], procs, qs))
    && (forall i :: 0 <= i < |es| ==>
          Enabled(run[i], es[i], procs, qs) && run[i + 1] == After(run[i], es[i], procs, qs, max))
  }

  /** The items linked to queue q by the first n events, in order. */
  function Pushed(es: seq<Event>, n: nat, q: nat): seq<nat>
    requires n <= |es|
  {
    if n == 0 then []
    else Pushed(es, n - 1, q) + if es[n - 1].Linked? && es[n - 1].q == q then [es[n - 1].x] else []
  }

  /** The items unlinked from queue q by the first n events, in order. */
  ghost function Pulled(run: seq<Lists>, es: seq<Event>, n: nat, q: nat, b: nat): seq<nat>
    requires n <= |es| && |run| == |es| + 1
    requires forall i :: 0 <= i < |run| ==> Pull(b, q) in run[i]
    requires forall i :: 0 <= i < n && es[i].Unlinked? && es[i].q == q ==> run[i][Pull(b, q)] != []
  {
    if n == 0 then []
    else Pulled(run, es, n - 1, q, b)
         + if es[n - 1].Unlinked? && es[n - 1].q == q then [run[n - 1][Pull(b, q)][0]] else []
  }

  lemma {:induction false} Balance(outs: seq<nat>, pipe: seq<nat>, start: seq<nat>, ins: seq<nat>, pipe': seq<nat>,
                                   x: seq<nat>, y: seq<nat>)
    requires outs + pipe == start + ins && pipe + x == y + pipe'
    ensures outs + y + pipe' == start + (ins + x)
  {
    assert outs + y + pipe' == outs + (y + pipe') == outs + pipe + x;
  }

  /** First in, first out: in every interleaving, what b has pulled and what is still in the pipe is
      what was there at first and what a has pushed; so b always pulls a prefix of it. */
  lemma {:induction false} FirstInFirstOut(run: seq<Lists>, es: seq<Event>, procs: nat, qs: nat, max: nat,
                                           a: nat, b: nat, q: nat, n: nat)
    requires Interleaving(run, es, procs, qs, max) && a < procs && b < procs && q < qs && n <= |es|
    requires OnlyBatches(run[0], a, b, q) && forall i :: 0 <= i < n ==> Roles(es[i], a, b, q)
    ensures forall i :: 0 <= i < n && es[i].Unlinked? && es[i].q == q ==> run[i][Pull(b, q)] != []
    ensures OnlyBatches(run[n], a, b, q)
    ensures Pulled(run, es, n, q, b) + Pipe(run[n], a, b, q) == Pipe(run[0], a, b, q) + Pushed(es, n, q)
    decreases n
  {
    hide After, OnlyBatches, Pipe;
    if n > 0 {
      FirstInFirstOut(run, es, procs, qs, max, a, b, q, n - 1);
      assert Enabled(run[n - 1], es[n - 1], procs, qs) && run[n - 1 + 1] == After(run[n - 1], es[n - 1], procs, qs, max);
      PipeStep(run[n - 1], es[n - 1], procs, qs, max, a, b, q);
      var e, out, ins := es[n - 1], Pulled(run, es, n - 1, q, b), Pushed(es, n - 1, q);
      Balance(out, Pipe(run[n - 1], a, b, q), Pipe(run[0], a, b, q), ins, Pipe(run[n], a, b, q),
              if e.Linked? && e.q == q then [e.x] else [],
              if e.Unlinked? && e.q == q then [run[n - 1][Pull(b, q)][0]] else []);
    }
  }
}
