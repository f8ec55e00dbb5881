/**
  The fair read/write ticket lock with tickets that never wrap: atomic steps of any number of threads.
  A ticket is an index; its stage is where the thread that drew it has got to.
 */
module TicketLock {

  datatype Kind = Reader | Writer

  /** Seen: a reader has observed its ticket but not yet let the next reader in. */
  datatype Stage = Waiting | Seen | Holding | Released

  datatype Ticket = Ticket(kind: Kind, stage: Stage)

  /** active_writer, active_reader, and the tickets drawn so far; ticket_next is their number. */
  datatype Lock = Lock(aw: nat, ar: nat, tickets: seq<Ticket>)

  const INITIAL := Lock(0, 0, [])

  function SetStage(l: Lock, t: nat, stage: Stage): Lock
    requires t < |l.tickets|
  {
    l.(tickets := l.tickets[t := l.tickets[t].(stage := stage)])
  }

  // ----- the atomic steps -----

  function Draw(l: Lock, kind: Kind): Lock {
    l.(tickets := l.tickets + [Ticket(kind, Waiting)])
  }

  /** The steps a ticket can take: enter or be seen on a match, be counted, release. */
  predicate CanMove(l: Lock, t: nat) {
    t < |l.tickets| &&
    match l.tickets[t]
    case Ticket(Writer, Waiting) => t == l.aw
    case Ticket(Writer, Holding) => true
    case Ticket(Reader, Waiting) => t == l.ar
    case Ticket(Reader, Seen) => true
    case Ticket(Reader, Holding) => true
    case _ => false
  }

  function Move(l: Lock, t: nat): Lock
    requires CanMove(l, t)
  {
    match l.tickets[t]
    case Ticket(Writer, Waiting) => SetStage(l, t, Holding)
    case Ticket(Writer, Holding) => SetStage(l, t, Released).(aw := l.aw + 1, ar := l.ar + 1)
    case Ticket(Reader, Waiting) => SetStage(l, t, Seen)
    case Ticket(Reader, Seen) => SetStage(l, t, Holding).(ar := l.ar + 1)
    case Ticket(Reader, Holding) => SetStage(l, t, Released).(aw := l.aw + 1)
  }

  ghost predicate Step(l: Lock, l': Lock) {
    (exists kind :: l' == Draw(l, kind)) || (exists t :: CanMove(l, t) && l' == Move(l, t))
  }

  // ----- the invariant -----

  /** How many of the first n tickets have been released. */
  function ReleasedIn(ts: seq<Ticket>, n: nat): (c: nat)
    requires n <= |ts|
    ensures c <= n
  {
    if n == 0 then 0 else ReleasedIn(ts, n - 1) + if ts[n - 1].stage == Released then 1 else 0
  }

  /** Below active_reader: released, or a reader still reading. */
  predicate Entered(x: Ticket) {
    x.stage == Released || (x.kind == Reader && x.stage == Holding)
  }

  /** From active_reader on: waiting, or the one ticket whose turn it is. */
  predicate Pending(l: Lock, t: nat)
    requires t < |l.tickets|
  {
    match l.tickets[t]
    case Ticket(_, Waiting) => true
    case Ticket(Reader, Seen) => t == l.ar
    case Ticket(Writer, Holding) => t == l.aw
    case _ => false
  }

  /** active_writer counts the releases, active_reader the entries, and both are at most ticket_next. */
  ghost predicate Inv(l: Lock) {
    && l.aw <= l.ar <= |l.tickets|
    && l.aw == ReleasedIn(l.tickets, |l.tickets|)
    && (forall t :: 0 <= t < l.ar ==> Entered(l.tickets[t]))
    && (forall t :: l.ar <= t < |l.tickets| ==> Pending(l, t))
  }

  lemma {:induction false} ReleasedUpdate(ts: seq<Ticket>, n: nat, t: nat, x: Ticket)
    requires n <= |ts| && t < |ts| && ts[t].stage != Released
    ensures ReleasedIn(ts[t := x], n) == ReleasedIn(ts, n) + if t < n && x.stage == Released then 1 else 0
    decreases n
  {
    if n > 0 { ReleasedUpdate(ts, n - 1, t, x); }
  }

  lemma {:induction false} ReleasedAppend(ts: seq<Ticket>, n: nat, x: Ticket)
    requires n <= |ts|
    ensures ReleasedIn(ts + [x], n) == ReleasedIn(ts, n)
    decreases n
  {
    if n > 0 { ReleasedAppend(ts, n - 1, x); }
  }

  /** Nothing from active_reader on has been released. */
  lemma {:induction false} ReleasedBelow(l: Lock, n: nat)
    requires Inv(l) && l.ar <= n <= |l.tickets|
    ensures ReleasedIn(l.tickets, n) == ReleasedIn(l.tickets, l.ar)
    decreases n
  {
    if n > l.ar {
      assert Pending(l, n - 1);
      ReleasedBelow(l, n - 1);
    }
  }

  lemma {:induction false} AllReleased(ts: seq<Ticket>, n: nat, t: nat)
    requires n <= |ts| && ReleasedIn(ts, n) == n && t < n
    ensures ts[t].stage == Released
    decreases n
  {
    if t < n - 1 { AllReleased(ts, n - 1, t); }
  }

  /** When active_writer has caught up with active_reader, every ticket below has been released. */
  lemma {:induction false} CaughtUp(l: Lock, t: nat)
    requires Inv(l) && l.aw == l.ar && t < l.ar
    ensures l.tickets[t].stage == Released
  {
    ReleasedBelow(l, |l.tickets|);
    AllReleased(l.tickets, l.ar, t);
  }

  lemma {:induction false} DrawKeeps(l: Lock, kind: Kind)
    requires Inv(l)
    ensures Inv(Draw(l, kind))
  {
    var l' := Draw(l, kind);
    ReleasedAppend(l.tickets, |l.tickets|, Ticket(kind, Waiting));
    forall t | l'.ar <= t < |l'.tickets| ensures Pending(l', t) {
      if t < |l.tickets| { assert Pending(l, t); }
    }
  }

  lemma {:induction false} MoveKeeps(l: Lock, t: nat)
    requires Inv(l) && CanMove(l, t)
    ensures Inv(Move(l, t))
  {
    var l' := Move(l, t);
    ReleasedUpdate(l.tickets, |l.tickets|, t, l'.tickets[t]);
    if t >= l.ar {
      assert Pending(l, t);
    } else if l.aw == l.ar {
      CaughtUp(l, t);
    }
    forall i | 0 <= i < l'.ar ensures Entered(l'.tickets[i]) {
      if i < l.ar { assert Entered(l.tickets[i]); }
    }
    forall i | l'.ar <= i < |l'.tickets| ensures Pending(l', i) {
      assert Pending(l, i);
    }
  }

  /** Every step of every thread keeps the invariant. */
  lemma {:induction false} StepKeeps(l: Lock, l': Lock)
    requires Inv(l) && Step(l, l')
    ensures Inv(l')
  {
    if kind :| l' == Draw(l, kind) {
      DrawKeeps(l, kind);
    } else {
      var t :| CanMove(l, t) && l' == Move(l, t);
      MoveKeeps(l, t);
    }
  }

  ghost predicate Execution(run: seq<Lock>) {
    && |run| > 0 && run[0] == INITIAL
    && forall i :: 0 <= i < |run| - 1 ==> Step(run[i], run[i + 1])
  }

  lemma {:induction false} Invariant(run: seq<Lock>, i: nat)
    requires Execution(run) && i < |run|
    ensures Inv(run[i])
  {
    if i > 0 {
      Invariant(run, i - 1);
      assert Step(run[i - 1], run[i - 1 + 1]);
      StepKeeps(run[i - 1], run[i]);
    }
  }

  // ----- safety, fairness, progress -----

  /** A writer that holds is the only holder, and no reader is about to be let in. */
  lemma {:induction false} WriterAlone(l: Lock, w: nat, t: nat)
    requires Inv(l) && w < |l.tickets| && t < |l.tickets| && t != w
    requires l.tickets[w] == Ticket(Writer, Holding)
    ensures l.tickets[t].stage == Waiting || l.tickets[t].stage == Released
    ensures t < w <==> l.tickets[t].stage == Released
  {
    assert w < l.ar ==> Entered(l.tickets[w]);
    assert Pending(l, w);
    if t < w {
      CaughtUp(l, t);
    } else {
      assert Pending(l, t);
    }
  }

  /** Mutual exclusion in every state of every execution. */
  lemma {:induction false} Exclusion(run: seq<Lock>, i: nat, w: nat, t: nat)
    requires Execution(run) && i < |run| && w < |run[i].tickets| && t < |run[i].tickets| && t != w
    requires run[i].tickets[w] == Ticket(Writer, Holding)
    ensures run[i].tickets[t].stage != Holding
  {
    Invariant(run, i);
    WriterAlone(run[i], w, t);
  }

  /** A writer may enter exactly when every earlier ticket has been released. */
  lemma {:induction false} WriterTurn(l: Lock, w: nat)
    requires Inv(l) && w < |l.tickets| && l.tickets[w] == Ticket(Writer, Waiting)
    ensures CanMove(l, w) <==> forall t :: 0 <= t < w ==> l.tickets[t].stage == Released
  {
    assert w < l.ar ==> Entered(l.tickets[w]);
    if w == l.aw {
      forall t | 0 <= t < w ensures l.tickets[t].stage == Released { CaughtUp(l, t); }
    } else if forall t :: 0 <= t < w ==> l.tickets[t].stage == Released {
      CountAll(l.tickets, w);
      ReleasedBelow(l, |l.tickets|);
      ReleasedBelow(l, w);
      assert false;
    }
  }

  lemma {:induction false} CountAll(ts: seq<Ticket>, n: nat)
    requires n <= |ts| && forall t :: 0 <= t < n ==> ts[t].stage == Released
    ensures ReleasedIn(ts, n) == n
    decreases n
  {
    if n > 0 { CountAll(ts, n - 1); }
  }

  /** A reader may be let in exactly when every earlier ticket has entered: earlier readers are in or
      gone and earlier writers gone. */
  lemma {:induction false} ReaderTurn(l: Lock, r: nat)
    requires Inv(l) && r < |l.tickets| && l.tickets[r] == Ticket(Reader, Waiting)
    ensures CanMove(l, r) <==> forall t :: 0 <= t < r ==> Entered(l.tickets[t])
  {
    assert r < l.ar ==> Entered(l.tickets[r]);
    if r > l.ar {
      assert Pending(l, l.ar);
      assert !Entered(l.tickets[l.ar]);
    }
  }

  /** No deadlock: while a ticket up to t is out, some ticket up to t can move. */
  lemma {:induction false} SomeoneMoves(l: Lock, t: nat) returns (m: nat)
    requires Inv(l) && t < |l.tickets| && l.tickets[t].stage != Released
    ensures m <= t && CanMove(l, m)
  {
    if l.aw == l.ar {
      if t < l.ar { CaughtUp(l, t); }
      m := l.ar;
      assert Pending(l, m);
    } else {
      m := SomeReader(l);
      if t < m {
        assert Entered(l.tickets[t]);
        m := t;
      }
    }
  }

  /** While releases lag entries, a reader is reading. */
  lemma {:induction false} SomeReader(l: Lock) returns (m: nat)
    requires Inv(l) && l.aw < l.ar
    ensures m < l.ar && l.tickets[m] == Ticket(Reader, Holding)
  {
    ReleasedBelow(l, |l.tickets|);
    if forall t :: 0 <= t < l.ar ==> l.tickets[t].stage == Released {
      CountAll(l.tickets, l.ar);
      assert false;
    }
    m :| 0 <= m < l.ar && l.tickets[m].stage != Released;
    assert Entered(l.tickets[m]);
  }

  /** Steps a ticket still has to take until it has been released. */
  function Left(x: Ticket): nat {
    match x
    case Ticket(_, Released) => 0
    case Ticket(_, Holding) => 1
    case Ticket(_, Seen) => 2
    case Ticket(Writer, Waiting) => 2
    case Ticket(Reader, Waiting) => 3
  }

  function Work(ts: seq<Ticket>, n: nat): nat
    requires n <= |ts|
  {
    if n == 0 then 0 else Work(ts, n - 1) + Left(ts[n - 1])
  }

  lemma {:induction false} WorkUpdate(ts: seq<Ticket>, n: nat, t: nat, x: Ticket)
    requires n <= |ts| && t < |ts|
    ensures Work(ts[t := x], n) == Work(ts, n) + if t < n then Left(x) - Left(ts[t]) else 0
    decreases n
  {
    if n > 0 { WorkUpdate(ts, n - 1, t, x); }
  }

  lemma {:induction false} WorkAppend(ts: seq<Ticket>, n: nat, x: Ticket)
    requires n <= |ts|
    ensures Work(ts + [x], n) == Work(ts, n)
    decreases n
  {
    if n > 0 { WorkAppend(ts, n - 1, x); }
  }

  /** A step of a ticket up to t. */
  ghost predicate Helps(l: Lock, l': Lock, t: nat) {
    exists m: nat :: m <= t && CanMove(l, m) && l' == Move(l, m)
  }

  lemma {:induction false} MoveWork(l: Lock, m: nat, t: nat)
    requires CanMove(l, m) && t < |l.tickets|
    ensures Work(Move(l, m).tickets, t + 1) == Work(l.tickets, t + 1) - (if m <= t then 1 else 0)
  {
    WorkUpdate(l.tickets, t + 1, m, Move(l, m).tickets[m]);
  }

  /** The work ahead of a ticket never grows, and each step of a ticket up to it takes one unit off. */
  lemma {:induction false} WorkDone(l: Lock, l': Lock, t: nat)
    requires Step(l, l') && t < |l.tickets|
    ensures t < |l'.tickets|
    ensures Work(l'.tickets, t + 1) + (if Helps(l, l', t) then 1 else 0) <= Work(l.tickets, t + 1)
  {
    if Helps(l, l', t) {
      var m: nat :| m <= t && CanMove(l, m) && l' == Move(l, m);
      MoveWork(l, m, t);
    } else if kind :| l' == Draw(l, kind) {
      WorkAppend(l.tickets, t + 1, Ticket(kind, Waiting));
    } else {
      var m: nat :| CanMove(l, m) && l' == Move(l, m);
      MoveWork(l, m, t);
    }
  }

  /** How many steps from i to j were taken by tickets up to t. */
  ghost function Helped(run: seq<Lock>, i: nat, j: nat, t: nat): nat
    requires i <= j < |run|
    decreases j
  {
    if i == j then 0 else Helped(run, i, j - 1, t) + if Helps(run[j - 1], run[j], t) then 1 else 0
  }

  /** Over any stretch of any execution, whatever later tickets do, the tickets up to t take at most the steps that
      were left when the stretch began, three for each of them. */
  lemma {:induction false} BoundedWait(run: seq<Lock>, i: nat, j: nat, t: nat)
    requires Execution(run) && i <= j < |run| && t < |run[i].tickets|
    ensures t < |run[j].tickets|
    ensures Helped(run, i, j, t) + Work(run[j].tickets, t + 1) <= Work(run[i].tickets, t + 1) <= 3 * (t + 1)
    decreases j
  {
    hide Step, Helps, Work;
    WorkAtMost(run[i].tickets, t + 1);
    if i < j {
      BoundedWait(run, i, j - 1, t);
      assert Step(run[j - 1], run[j - 1 + 1]);
      WorkDone(run[j - 1], run[j], t);
    }
  }

  lemma {:induction false} WorkAtMost(ts: seq<Ticket>, n: nat)
    requires n <= |ts|
    ensures Work(ts, n) <= 3 * n
  {
    if n > 0 { WorkAtMost(ts, n - 1); }
  }

  lemma {:induction false} WorkNone(ts: seq<Ticket>, n: nat, t: nat)
    requires t < n <= |ts| && Work(ts, n) == 0
    ensures ts[t].stage == Released
    decreases n
  {
    if t < n - 1 { WorkNone(ts, n - 1, t); }
  }

  /** No starvation: from any state i of any execution, as long as ticket t has not been released, some ticket up to t
      can step; and once tickets up to t have taken as many steps as were left in state i, t has been released. Later
      tickets can neither stop these steps nor add to them. */
  lemma {:induction false} NoStarvation(run: seq<Lock>, i: nat, j: nat, t: nat)
    requires Execution(run) && i <= j < |run| && t < |run[i].tickets|
    ensures t < |run[j].tickets| && Work(run[i].tickets, t + 1) <= 3 * (t + 1)
    ensures run[j].tickets[t].stage == Released || exists m: nat :: m <= t && CanMove(run[j], m)
    ensures Helped(run, i, j, t) <= Work(run[i].tickets, t + 1)
    ensures Helped(run, i, j, t) == Work(run[i].tickets, t + 1) ==> run[j].tickets[t].stage == Released
  {
    BoundedWait(run, i, j, t);
    Invariant(run, j);
    if run[j].tickets[t].stage != Released {
      var m := SomeoneMoves(run[j], t);
    }
    if Helped(run, i, j, t) == Work(run[i].tickets, t + 1) {
      WorkNone(run[j].tickets, t + 1, t);
    }
  }
}
