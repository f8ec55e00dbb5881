/**
  The fair read/write lock as it is laid out: three 8-bit ticket counters, each followed by a pad byte,
  in one 64-bit word. Counters are raised by atomic adds to the whole word and the pads are zeroed by
  separate, later byte stores. With at most 256 threads this lock refines the unbounded one; with more
  it does not exclude writers.
 */
module PackedLock {
  import opened TicketLock
  import opened Arithmetic

  // ----- the word -----

  const INC_ACTIVE_WRITER: nat := 1
  const INC_ACTIVE_READER: nat := 0x1_0000
  const INC_NEXT: nat := 0x1_0000_0000
  const WORD: nat := 0x1_0000_0000_0000_0000

  function Unit(k: nat): (u: nat)
    ensures u >= 1
  {
    if k == 0 then 1 else 256 * Unit(k - 1)
  }

  function Byte(word: nat, k: nat): nat {
    word / Unit(k) % 256
  }

  lemma {:induction false} ByteInWord(word: nat, k: nat)
    ensures Byte(word, k) * Unit(k) <= word
  {
    var u := Unit(k);
    assert word == (word / u) * u + word % u;
    assert Byte(word, k) <= word / u;
    assert Byte(word, k) * u <= (word / u) * u;
  }

  /** A byte store of 0. */
  function ZeroByte(word: nat, k: nat): nat {
    ByteInWord(word, k);
    word - Byte(word, k) * Unit(k)
  }

  /** A byte, given what is above and below it. */
  lemma {:induction false} ByteOf(word: nat, k: nat, high: nat, b: nat, low: nat)
    requires b < 256 && low < Unit(k) && word == (256 * high + b) * Unit(k) + low
    ensures Byte(word, k) == b
  {
    DivUnique(word, Unit(k), 256 * high + b, low);
  }

  function FetchAdd(word: nat, inc: nat): nat {
    (word + inc) % WORD
  }

  /** Each counter with its pad byte above it. */
  datatype Fields = Fields(aw: nat, ar: nat, next: nat)

  function Pack(f: Fields): nat {
    f.aw + 0x1_0000 * f.ar + 0x1_0000_0000 * f.next
  }

  predicate Fits(f: Fields) {
    f.aw < 0x1_0000 && f.ar < 0x1_0000 && f.next < 0x1_0000
  }

  lemma {:induction false} Units()
    ensures Unit(0) == 1 && Unit(1) == 0x100 && Unit(2) == 0x1_0000 && Unit(3) == 0x100_0000
    ensures Unit(4) == 0x1_0000_0000 && Unit(5) == 0x100_0000_0000
  {
    assert Unit(1) == 256 * Unit(0);
    assert Unit(2) == 256 * Unit(1);
    assert Unit(3) == 256 * Unit(2);
    assert Unit(4) == 256 * Unit(3);
    assert Unit(5) == 256 * Unit(4);
  }

  /** The three counters are bytes 0, 2 and 4 of the word. */
  lemma {:induction false} Counters(f: Fields)
    requires Fits(f)
    ensures Byte(Pack(f), 0) == f.aw % 256 && Byte(Pack(f), 2) == f.ar % 256 && Byte(Pack(f), 4) == f.next % 256
  {
    Units();
    var w := Pack(f);
    ByteOf(w, 0, f.aw / 256 + 0x100 * f.ar + 0x100_0000 * f.next, f.aw % 256, 0);
    ByteOf(w, 2, f.ar / 256 + 0x100 * f.next, f.ar % 256, f.aw);
    ByteOf(w, 4, f.next / 256, f.next % 256, f.aw + 0x1_0000 * f.ar);
  }

  /** Zeroing a pad takes the carries out of its field and touches no other. */
  lemma {:induction false} Pads(f: Fields)
    requires Fits(f)
    ensures ZeroByte(Pack(f), 1) == Pack(f.(aw := f.aw % 256))
    ensures ZeroByte(Pack(f), 3) == Pack(f.(ar := f.ar % 256))
    ensures ZeroByte(Pack(f), 5) == Pack(f.(next := f.next % 256))
  {
    Units();
    var w := Pack(f);
    ByteOf(w, 1, f.ar + 0x1_0000 * f.next, f.aw / 256, f.aw % 256);
    ByteOf(w, 3, f.next, f.ar / 256, f.aw + 0x1_0000 * (f.ar % 256));
    ByteOf(w, 5, 0, f.next / 256, f.aw + 0x1_0000 * f.ar + 0x1_0000_0000 * (f.next % 256));
  }

  /** While no field is full, an add stays inside its field. */
  lemma {:induction false} NoCarry(f: Fields)
    requires f.aw < 0xffff && f.ar < 0xffff && f.next < 0xffff
    ensures FetchAdd(Pack(f), INC_NEXT) == Pack(f.(next := f.next + 1))
    ensures FetchAdd(Pack(f), INC_ACTIVE_READER) == Pack(f.(ar := f.ar + 1))
    ensures FetchAdd(Pack(f), INC_ACTIVE_WRITER) == Pack(f.(aw := f.aw + 1))
    ensures FetchAdd(Pack(f), INC_ACTIVE_WRITER + INC_ACTIVE_READER) == Pack(f.(aw := f.aw + 1, ar := f.ar + 1))
  {
  }

  // ----- threads -----

  /** Where a thread is; the comments give the statement it is about to execute. */
  datatype Pc =
    | Idle                               // draw a ticket
    | Drawn(kind: Kind, ticket: nat)     // zero the pad of ticket_next
    | Spinning(kind: Kind, ticket: nat)  // compare its ticket with active_writer or active_reader
    | Matched                            // reader: raise active_reader
    | Counted                            // reader: zero the pad of active_reader
    | Inside(kind: Kind)                 // holding; unlock raises the counters
    | LeftWriter                         // zero the pad of active_writer
    | LeftWriter2                        // zero the pad of active_reader
    | LeftReader                         // zero the pad of active_writer

  datatype Mem = Mem(word: nat, pcs: seq<Pc>)

  function Init(n: nat): Mem {
    Mem(0, seq(n, i => Idle))
  }

  /** Every thread can take a step, except one that spins on a ticket not yet up. */
  predicate CanStep(s: Mem, i: nat) {
    i < |s.pcs| &&
    match s.pcs[i]
    case Spinning(Writer, t) => t == Byte(s.word, 0)
    case Spinning(Reader, t) => t == Byte(s.word, 2)
    case _ => true
  }

  /** One atomic step of thread i; `kind` matters only when it draws a ticket. */
  function Advance(s: Mem, i: nat, kind: Kind): Mem
    requires CanStep(s, i)
  {
    match s.pcs[i]
    case Idle => Mem(FetchAdd(s.word, INC_NEXT), s.pcs[i := Drawn(kind, Byte(s.word, 4))])
    case Drawn(k, t) => Mem(ZeroByte(s.word, 5), s.pcs[i := Spinning(k, t)])
    case Spinning(Writer, _) => s.(pcs := s.pcs[i := Inside(Writer)])
    case Spinning(Reader, _) => s.(pcs := s.pcs[i := Matched])
    case Matched => Mem(FetchAdd(s.word, INC_ACTIVE_READER), s.pcs[i := Counted])
    case Counted => Mem(ZeroByte(s.word, 3), s.pcs[i := Inside(Reader)])
    case Inside(Writer) => Mem(FetchAdd(s.word, INC_ACTIVE_WRITER + INC_ACTIVE_READER), s.pcs[i := LeftWriter])
    case LeftWriter => Mem(ZeroByte(s.word, 1), s.pcs[i := LeftWriter2])
    case LeftWriter2 => Mem(ZeroByte(s.word, 3), s.pcs[i := Idle])
    case Inside(Reader) => Mem(FetchAdd(s.word, INC_ACTIVE_WRITER), s.pcs[i := LeftReader])
    case LeftReader => Mem(ZeroByte(s.word, 1), s.pcs[i := Idle])
  }

  ghost predicate MemStep(s: Mem, s': Mem) {
    exists i: nat, kind :: CanStep(s, i) && s' == Advance(s, i, kind)
  }

  ghost predicate MemExecution(n: nat, run: seq<Mem>) {
    && |run| > 0 && run[0] == Init(n)
    && forall i :: 0 <= i < |run| - 1 ==> MemStep(run[i], run[i + 1])
  }

  predicate In(pc: Pc, kind: Kind) {
    pc == Inside(kind) || (kind == Reader && pc == Counted)
  }

  /** A writer is in together with another holder. */
  ghost predicate Clash(s: Mem) {
    exists i, j :: 0 <= i < |s.pcs| && 0 <= j < |s.pcs| && i != j
                   && In(s.pcs[i], Writer) && (In(s.pcs[j], Writer) || In(s.pcs[j], Reader))
  }

  // ----- counting threads -----

  datatype Group = OwesAw | OwesAr | OwesNext | HasTicket

  /** Threads that still owe a pad its zero, and threads whose ticket is out. */
  predicate Member(pc: Pc, g: Group) {
    match g
    case OwesAw => pc.LeftWriter? || pc.LeftReader?
    case OwesAr => pc.Counted? || pc.LeftWriter? || pc.LeftWriter2?
    case OwesNext => pc.Drawn?
    case HasTicket => pc.Drawn? || pc.Spinning? || pc.Matched? || pc.Counted? || pc.Inside?
  }

  function Count(pcs: seq<Pc>, g: Group): (n: nat)
    ensures n <= |pcs|
  {
    if pcs == [] then 0 else Count(pcs[..|pcs| - 1], g) + if Member(pcs[|pcs| - 1], g) then 1 else 0
  }

  lemma {:induction false} CountUpdate(pcs: seq<Pc>, i: nat, pc: Pc, g: Group)
    requires i < |pcs|
    ensures Count(pcs[i := pc], g) ==
            Count(pcs, g) + (if Member(pc, g) then 1 else 0) - (if Member(pcs[i], g) then 1 else 0)
    decreases |pcs|
  {
    var n := |pcs| - 1;
    if i == n {
      assert pcs[i := pc][..n] == pcs[..n];
    } else {
      assert pcs[i := pc][..n] == pcs[..n][i := pc];
      CountUpdate(pcs[..n], i, pc, g);
    }
  }

  // ----- the simulation -----

  /** A field agrees with its counter modulo 256, and since its pad was last zeroed it has been raised
      at most once for each thread that owes that pad a zero. */
  predicate FieldOk(field: nat, counter: nat, owing: nat) {
    field % 256 == counter % 256 && field <= 255 + owing
  }

  lemma {:induction false} FieldSteps(field: nat, counter: nat, owing: nat)
    requires FieldOk(field, counter, owing)
    ensures field % 256 == counter % 256 && FieldOk(field + 1, counter + 1, owing + 1)
    ensures forall n: nat :: FieldOk(field % 256, counter, n)
  {
    DivSucc(field, 256);
    DivSucc(counter, 256);
  }

  predicate FieldsOk(f: Fields, pcs: seq<Pc>, l: Lock) {
    && FieldOk(f.aw, l.aw, Count(pcs, OwesAw))
    && FieldOk(f.ar, l.ar, Count(pcs, OwesAr))
    && FieldOk(f.next, |l.tickets|, Count(pcs, OwesNext))
  }

  /** What the ticket of a thread looks like, by where the thread is. */
  predicate Linked(pc: Pc, t: nat, l: Lock) {
    Member(pc, HasTicket) ==>
      && t < |l.tickets|
      && match pc
         case Drawn(k, b) => l.tickets[t] == Ticket(k, Waiting) && b == t % 256
         case Spinning(k, b) => l.tickets[t] == Ticket(k, Waiting) && b == t % 256
         case Matched => l.tickets[t] == Ticket(Reader, Seen)
         case Counted => l.tickets[t] == Ticket(Reader, Holding)
         case Inside(k) => l.tickets[t] == Ticket(k, Holding)
         case _ => true
  }

  ghost predicate Owners(pcs: seq<Pc>, own: seq<nat>, l: Lock) {
    && |own| == |pcs|
    && (forall i :: 0 <= i < |pcs| ==> Linked(pcs[i], own[i], l))
    && (forall i, j :: 0 <= i < j < |pcs| && Member(pcs[i], HasTicket) && Member(pcs[j], HasTicket) ==>
          own[i] != own[j])
  }

  /** The word and the threads stand for the unbounded lock `l`; thread i holds ticket own[i]. */
  ghost predicate Sim(s: Mem, l: Lock, own: seq<nat>, f: Fields) {
    && Inv(l) && |s.pcs| <= 256
    && s.word == Pack(f) && FieldsOk(f, s.pcs, l)
    && |l.tickets| == l.aw + Count(s.pcs, HasTicket)
    && Owners(s.pcs, own, l)
  }

  /** A ticket that is out is fewer than 256 ahead of active_writer, so equal bytes mean equal tickets. */
  lemma {:induction false} SameByte(t: nat, c: nat, n: nat)
    requires c <= t < n && n - c <= 256 && t % 256 == c % 256
    ensures t == c
  {
  }

  /** Owners of other tickets see no change when ticket own[i] moves and thread i with it. */
  lemma {:induction false} OwnersMove(pcs: seq<Pc>, own: seq<nat>, l: Lock, i: nat, pc: Pc)
    requires Owners(pcs, own, l) && i < |pcs| && Member(pcs[i], HasTicket) && CanMove(l, own[i])
    requires Linked(pc, own[i], Move(l, own[i]))
    ensures Owners(pcs[i := pc], own, Move(l, own[i]))
  {
    forall j | 0 <= j < |pcs| ensures Linked(pcs[i := pc][j], own[j], Move(l, own[i])) {
      assert Linked(pcs[j], own[j], l);
      if j != i && Member(pcs[j], HasTicket) {
        if j < i { assert own[j] != own[i]; } else { assert own[i] != own[j]; }
      }
    }
  }

  lemma {:induction false} OwnersDraw(pcs: seq<Pc>, own: seq<nat>, l: Lock, i: nat, k: Kind)
    requires Owners(pcs, own, l) && i < |pcs| && !Member(pcs[i], HasTicket)
    ensures Owners(pcs[i := Drawn(k, |l.tickets| % 256)], own[i := |l.tickets|], Draw(l, k))
  {
    var pcs', own' := pcs[i := Drawn(k, |l.tickets| % 256)], own[i := |l.tickets|];
    forall j | 0 <= j < |pcs| ensures Linked(pcs'[j], own'[j], Draw(l, k)) {
      assert Linked(pcs[j], own[j], l);
    }
    forall a, b | 0 <= a < b < |pcs| && Member(pcs'[a], HasTicket) && Member(pcs'[b], HasTicket)
      ensures own'[a] != own'[b]
    {
      assert Linked(pcs[a], own[a], l) && Linked(pcs[b], own[b], l);
    }
  }

  /** A step that only zeroes a pad: the unbounded lock stands still. */
  lemma {:induction false} OwnersStay(pcs: seq<Pc>, own: seq<nat>, l: Lock, i: nat, pc: Pc)
    requires Owners(pcs, own, l) && i < |pcs| && Linked(pc, own[i], l)
    requires Member(pc, HasTicket) ==> Member(pcs[i], HasTicket)
    ensures Owners(pcs[i := pc], own, l)
  {
    forall j | 0 <= j < |pcs| ensures Linked(pcs[i := pc][j], own[j], l) {
      assert Linked(pcs[j], own[j], l);
    }
  }

  lemma {:induction false} CountsUpdate(pcs: seq<Pc>, i: nat, pc: Pc)
    requires i < |pcs|
    ensures forall g :: Count(pcs[i := pc], g) ==
              Count(pcs, g) + (if Member(pc, g) then 1 else 0) - (if Member(pcs[i], g) then 1 else 0)
  {
    forall g ensures Count(pcs[i := pc], g) ==
              Count(pcs, g) + (if Member(pc, g) then 1 else 0) - (if Member(pcs[i], g) then 1 else 0) {
      CountUpdate(pcs, i, pc, g);
    }
  }

  lemma {:induction false} FieldsFit(s: Mem, l: Lock, own: seq<nat>, f: Fields)
    requires Sim(s, l, own, f)
    ensures f.aw <= 511 && f.ar <= 511 && f.next <= 511 && Fits(f) && |own| == |s.pcs|
  {
  }

  lemma {:induction false} SimDraw(s: Mem, l: Lock, own: seq<nat>, f: Fields, i: nat, kind: Kind)
    requires Sim(s, l, own, f) && i < |s.pcs| && s.pcs[i] == Idle
    ensures Sim(Advance(s, i, kind), Draw(l, kind), own[i := |l.tickets|], f.(next := f.next + 1))
  {
    hide FieldOk, Byte, FetchAdd, Pack, Count, Owners, Inv;
    FieldsFit(s, l, own, f);
    FieldSteps(f.aw, l.aw, Count(s.pcs, OwesAw));
    FieldSteps(f.ar, l.ar, Count(s.pcs, OwesAr));
    FieldSteps(f.next, |l.tickets|, Count(s.pcs, OwesNext));
    Counters(f);
    NoCarry(f);
    var pc := Drawn(kind, |l.tickets| % 256);
    CountsUpdate(s.pcs, i, pc);
    OwnersDraw(s.pcs, own, l, i, kind);
    DrawKeeps(l, kind);
  }

  /** A pad store leaves the unbounded lock as it is. */
  lemma {:induction false} SimPad(s: Mem, l: Lock, own: seq<nat>, f: Fields, i: nat, kind: Kind) returns (f': Fields)
    requires Sim(s, l, own, f) && i < |s.pcs|
    requires s.pcs[i].Drawn? || s.pcs[i].Counted? || s.pcs[i].LeftWriter? || s.pcs[i].LeftWriter2? || s.pcs[i].LeftReader?
    ensures Sim(Advance(s, i, kind), l, own, f')
  {
    hide FieldOk, Byte, ZeroByte, Pack, Count, Inv;
    FieldsFit(s, l, own, f);
    FieldSteps(f.aw, l.aw, Count(s.pcs, OwesAw));
    FieldSteps(f.ar, l.ar, Count(s.pcs, OwesAr));
    FieldSteps(f.next, |l.tickets|, Count(s.pcs, OwesNext));
    Pads(f);
    var pc := Advance(s, i, kind).pcs[i];
    CountsUpdate(s.pcs, i, pc);
    assert Linked(s.pcs[i], own[i], l);
    OwnersStay(s.pcs, own, l, i, pc);
    f' := if s.pcs[i].Drawn? then f.(next := f.next % 256)
          else if s.pcs[i].Counted? || s.pcs[i].LeftWriter2? then f.(ar := f.ar % 256)
          else f.(aw := f.aw % 256);
  }

  /** The byte comparison of a spinning thread agrees with the comparison of unbounded tickets. */
  lemma {:induction false} Comparison(s: Mem, l: Lock, own: seq<nat>, f: Fields, i: nat)
    requires Sim(s, l, own, f) && i < |s.pcs| && s.pcs[i].Spinning?
    ensures CanStep(s, i) <==> CanMove(l, own[i])
  {
    FieldsFit(s, l, own, f);
    Counters(f);
    var t := own[i];
    assert Linked(s.pcs[i], t, l);
    assert t < l.ar ==> Entered(l.tickets[t]);
    if t % 256 == l.aw % 256 { SameByte(t, l.aw, |l.tickets|); }
    if t % 256 == l.ar % 256 { SameByte(t, l.ar, |l.tickets|); }
  }

  lemma {:induction false} SimSpin(s: Mem, l: Lock, own: seq<nat>, f: Fields, i: nat, kind: Kind)
    requires Sim(s, l, own, f) && CanStep(s, i) && s.pcs[i].Spinning?
    ensures CanMove(l, own[i]) && Sim(Advance(s, i, kind), Move(l, own[i]), own, f)
  {
    hide FieldOk, Byte, Pack, Count, Inv;
    Comparison(s, l, own, f, i);
    var pc := Advance(s, i, kind).pcs[i];
    assert Linked(s.pcs[i], own[i], l);
    CountsUpdate(s.pcs, i, pc);
    OwnersMove(s.pcs, own, l, i, pc);
    MoveKeeps(l, own[i]);
  }

  /** The adds of a reader that enters and of threads that leave. */
  lemma {:induction false} SimAdd(s: Mem, l: Lock, own: seq<nat>, f: Fields, i: nat, kind: Kind, f': Fields)
    requires Sim(s, l, own, f) && i < |s.pcs| && (s.pcs[i].Matched? || s.pcs[i].Inside?)
    requires f' == if s.pcs[i].Matched? then f.(ar := f.ar + 1)
                   else if s.pcs[i].kind == Writer then f.(aw := f.aw + 1, ar := f.ar + 1)
                   else f.(aw := f.aw + 1)
    ensures CanMove(l, own[i]) && Sim(Advance(s, i, kind), Move(l, own[i]), own, f')
  {
    hide FieldOk, Byte, FetchAdd, Pack, Count, Inv;
    FieldsFit(s, l, own, f);
    FieldSteps(f.aw, l.aw, Count(s.pcs, OwesAw));
    FieldSteps(f.ar, l.ar, Count(s.pcs, OwesAr));
    FieldSteps(f.next, |l.tickets|, Count(s.pcs, OwesNext));
    assert Linked(s.pcs[i], own[i], l);
    NoCarry(f);
    var s', l' := Advance(s, i, kind), Move(l, own[i]);
    assert s'.word == Pack(f');
    CountsUpdate(s.pcs, i, s'.pcs[i]);
    assert FieldsOk(f', s'.pcs, l');
    OwnersMove(s.pcs, own, l, i, s'.pcs[i]);
    MoveKeeps(l, own[i]);
  }

  /** Each step of the packed lock is a step of the unbounded lock, or none. */
  lemma {:induction false} SimStep(s: Mem, l: Lock, own: seq<nat>, f: Fields, i: nat, kind: Kind)
    returns (l': Lock, own': seq<nat>, f': Fields)
    requires Sim(s, l, own, f) && CanStep(s, i)
    ensures Sim(Advance(s, i, kind), l', own', f')
    ensures l' == l || Step(l, l')
    ensures |own| == |s.pcs| && own' == if s.pcs[i] == Idle then own[i := |l.tickets|] else own
  {
    hide Sim;
    FieldsFit(s, l, own, f);
    l', own', f' := l, own, f;
    if s.pcs[i] == Idle {
      SimDraw(s, l, own, f, i, kind);
      l', own', f' := Draw(l, kind), own[i := |l.tickets|], f.(next := f.next + 1);
    } else if s.pcs[i].Spinning? {
      SimSpin(s, l, own, f, i, kind);
      l' := Move(l, own[i]);
    } else if s.pcs[i].Matched? || s.pcs[i].Inside? {
      f' := if s.pcs[i].Matched? then f.(ar := f.ar + 1)
            else if s.pcs[i].kind == Writer then f.(aw := f.aw + 1, ar := f.ar + 1)
            else f.(aw := f.aw + 1);
      SimAdd(s, l, own, f, i, kind, f');
      l' := Move(l, own[i]);
    } else {
      f' := SimPad(s, l, own, f, i, kind);
    }
  }

  lemma {:induction false} CountNone(n: nat, g: Group)
    ensures Count(Init(n).pcs, g) == 0
  {
    if n > 0 {
      assert Init(n).pcs[..n - 1] == Init(n - 1).pcs;
      CountNone(n - 1, g);
    }
  }

  lemma {:induction false} SimInit(n: nat)
    requires n <= 256
    ensures Sim(Init(n), INITIAL, seq(n, i => 0), Fields(0, 0, 0))
  {
    forall g ensures Count(Init(n).pcs, g) == 0 { CountNone(n, g); }
  }

  ghost predicate Stands(s: Mem, l: Lock) {
    exists own, f :: Sim(s, l, own, f)
  }

  lemma {:induction false} StandsStep(s: Mem, s': Mem, l: Lock) returns (l': Lock)
    requires Stands(s, l) && MemStep(s, s')
    ensures Stands(s', l') && (l' == l || Step(l, l'))
  {
    hide Sim, Advance, CanStep;
    var own, f :| Sim(s, l, own, f);
    var i: nat, kind :| CanStep(s, i) && s' == Advance(s, i, kind);
    var own', f';
    l', own', f' := SimStep(s, l, own, f, i, kind);
  }

  /** Every run of the packed lock with at most 256 threads is, step for step, a run of the unbounded one:
      each state stands for one of its states, and each step is one of its steps or none. */
  lemma {:induction false} Refines(n: nat, run: seq<Mem>) returns (ls: seq<Lock>)
    requires n <= 256 && MemExecution(n, run)
    ensures |ls| == |run| && ls[0] == INITIAL
    ensures forall i :: 0 <= i < |run| ==> Stands(run[i], ls[i])
    ensures forall i :: 0 <= i < |run| - 1 ==> ls[i + 1] == ls[i] || Step(ls[i], ls[i + 1])
    decreases |run|
  {
    hide Sim, Stands, MemStep, Step;
    var k := |run| - 1;
    if k == 0 {
      SimInit(n);
      StandsFor(Init(n), INITIAL, seq(n, i => 0), Fields(0, 0, 0));
      ls := [INITIAL];
    } else {
      var before := run[..k];
      forall i | 0 <= i < |before| - 1 ensures MemStep(before[i], before[i + 1]) {
        assert MemStep(run[i], run[i + 1]);
      }
      ls := Refines(n, before);
      assert MemStep(run[k - 1], run[k - 1 + 1]);
      var l' := StandsStep(run[k - 1], run[k], ls[k - 1]);
      ls := ls + [l'];
    }
  }

  lemma {:induction false} StandsFor(s: Mem, l: Lock, own: seq<nat>, f: Fields)
    requires Sim(s, l, own, f)
    ensures Stands(s, l)
  {
  }

  lemma {:induction false} NoClash(s: Mem, l: Lock)
    requires Stands(s, l)
    ensures !Clash(s)
  {
    var own, f :| Sim(s, l, own, f);
    forall i, j | 0 <= i < |s.pcs| && 0 <= j < |s.pcs| && i != j && In(s.pcs[i], Writer)
      ensures !In(s.pcs[j], Writer) && !In(s.pcs[j], Reader)
    {
      assert Linked(s.pcs[i], own[i], l) && Linked(s.pcs[j], own[j], l);
      if Member(s.pcs[j], HasTicket) {
        if i < j { assert own[i] != own[j]; } else { assert own[j] != own[i]; }
        WriterAlone(l, own[i], own[j]);
      }
    }
  }

  // ----- no deadlock -----

  /** The tickets that threads have. */
  ghost function Owned(pcs: seq<Pc>, own: seq<nat>): (r: set<nat>)
    requires |own| == |pcs|
    ensures forall t :: t in r <==> exists i :: 0 <= i < |pcs| && Member(pcs[i], HasTicket) && own[i] == t
  {
    if pcs == [] then {}
    else
      var n := |pcs| - 1;
      assert forall i :: 0 <= i < n ==> pcs[..n][i] == pcs[i] && own[..n][i] == own[i];
      Owned(pcs[..n], own[..n]) + if Member(pcs[n], HasTicket) then {own[n]} else {}
  }

  lemma {:induction false} OwnedCount(pcs: seq<Pc>, own: seq<nat>)
    requires |own| == |pcs|
    requires forall i, j :: 0 <= i < j < |pcs| && Member(pcs[i], HasTicket) && Member(pcs[j], HasTicket) ==>
               own[i] != own[j]
    ensures |Owned(pcs, own)| == Count(pcs, HasTicket)
  {
    if pcs != [] {
      var n := |pcs| - 1;
      OwnedCount(pcs[..n], own[..n]);
      assert Member(pcs[n], HasTicket) ==> own[n] !in Owned(pcs[..n], own[..n]);
    }
  }

  /** The tickets that are out. */
  ghost function Out(ts: seq<Ticket>, n: nat): (r: set<nat>)
    requires n <= |ts|
    ensures forall t :: t in r <==> 0 <= t < n && ts[t].stage != Released
    ensures |r| == n - ReleasedIn(ts, n)
  {
    if n == 0 then {} else Out(ts, n - 1) + if ts[n - 1].stage != Released then {n - 1} else {}
  }

  lemma {:induction false} SameSize(a: set<nat>, b: set<nat>)
    requires a <= b && |a| == |b|
    ensures a == b
  {
    assert b == a + (b - a);
    assert |b| == |a| + |b - a|;
  }

  /** Every ticket that is out has a thread. */
  lemma {:induction false} OutOwned(s: Mem, l: Lock, own: seq<nat>, f: Fields, t: nat) returns (i: nat)
    requires Sim(s, l, own, f) && t < |l.tickets| && l.tickets[t].stage != Released
    ensures i < |s.pcs| && Member(s.pcs[i], HasTicket) && own[i] == t
  {
    hide Count, FieldsOk, Pack, Owned, Out, ReleasedIn;
    OwnedCount(s.pcs, own);
    OwnedOut(s.pcs, own, l);
    SameSize(Owned(s.pcs, own), Out(l.tickets, |l.tickets|));
    assert t in Owned(s.pcs, own);
    i :| 0 <= i < |s.pcs| && Member(s.pcs[i], HasTicket) && own[i] == t;
  }

  lemma {:induction false} OwnedOut(pcs: seq<Pc>, own: seq<nat>, l: Lock)
    requires Owners(pcs, own, l)
    ensures Owned(pcs, own) <= Out(l.tickets, |l.tickets|)
  {
    hide Owned, Out;
    forall t | t in Owned(pcs, own) ensures t in Out(l.tickets, |l.tickets|) {
      var i :| 0 <= i < |pcs| && Member(pcs[i], HasTicket) && own[i] == t;
      assert Linked(pcs[i], own[i], l);
    }
  }

  /** No deadlock: with at most 256 threads, in every execution, while a thread has a ticket, a thread that has one
      can step. */
  lemma {:induction false} NoDeadlock(n: nat, run: seq<Mem>, j: nat, i: nat) returns (k: nat)
    requires n <= 256 && MemExecution(n, run) && j < |run|
    requires i < |run[j].pcs| && Member(run[j].pcs[i], HasTicket)
    ensures k < |run[j].pcs| && Member(run[j].pcs[k], HasTicket) && CanStep(run[j], k)
  {
    hide Sim, MemStep, Step;
    var ls := Refines(n, run);
    assert Stands(run[j], ls[j]);
    var own, f :| Sim(run[j], ls[j], own, f);
    k := TicketSteps(run[j], ls[j], own, f, i);
  }

  lemma {:induction false} TicketSteps(s: Mem, l: Lock, own: seq<nat>, f: Fields, i: nat) returns (k: nat)
    requires Sim(s, l, own, f) && i < |s.pcs| && Member(s.pcs[i], HasTicket)
    ensures k < |s.pcs| && Member(s.pcs[k], HasTicket) && CanStep(s, k)
    ensures |own| == |s.pcs| && own[k] <= own[i]
  {
    hide Count, FieldsOk, Byte, Pack, Inv;
    if !s.pcs[i].Spinning? {
      k := i;
    } else {
      assert Linked(s.pcs[i], own[i], l);
      var m := SomeoneMoves(l, own[i]);
      k := OutOwned(s, l, own, f, m);
      if s.pcs[k].Spinning? { Comparison(s, l, own, f, k); }
    }
  }

  // ----- what 257 threads do -----

  ghost predicate Reachable(n: nat, s: Mem) {
    exists run :: MemExecution(n, run) && run[|run| - 1] == s
  }

  lemma {:induction false} ReachStep(n: nat, s: Mem, i: nat, kind: Kind)
    requires Reachable(n, s) && CanStep(s, i)
    ensures Reachable(n, Advance(s, i, kind))
  {
    hide Advance, CanStep;
    var run :| MemExecution(n, run) && run[|run| - 1] == s;
    var run' := run + [Advance(s, i, kind)];
    assert MemStep(s, Advance(s, i, kind));
    forall j | 0 <= j < |run'| - 1 ensures MemStep(run'[j], run'[j + 1]) {
      if j < |run| - 1 { assert MemStep(run[j], run[j + 1]); }
    }
    assert MemExecution(n, run');
  }

  /** Thread 0 writes; threads 1 to k-1 spin on the writer tickets they have drawn. */
  function Crowd(n: nat, k: nat): Mem
    requires 1 <= k <= n
  {
    Mem(Pack(Fields(0, 0, k % 256)),
        seq(n, i => if i == 0 then Inside(Writer) else if i < k then Spinning(Writer, i % 256) else Idle))
  }

  /** Thread i draws a writer ticket and zeroes the pad, when `next` tickets have been drawn so far. */
  lemma {:induction false} DrawTwoSteps(n: nat, s: Mem, i: nat, next: nat)
    requires Reachable(n, s) && i < |s.pcs| && s.pcs[i] == Idle && next < 256
    requires s.word == Pack(Fields(0, 0, next))
    ensures Reachable(n, Mem(Pack(Fields(0, 0, (next + 1) % 256)), s.pcs[i := Spinning(Writer, next)]))
  {
    hide Byte, FetchAdd, ZeroByte, Pack;
    var f := Fields(0, 0, next);
    Counters(f);
    NoCarry(f);
    ReachStep(n, s, i, Writer);
    var s1 := Advance(s, i, Writer);
    Pads(f.(next := next + 1));
    ReachStep(n, s1, i, Writer);
    assert Advance(s1, i, Writer) == Mem(Pack(Fields(0, 0, (next + 1) % 256)), s.pcs[i := Spinning(Writer, next)]);
  }

  lemma {:induction false} InitReachable(n: nat)
    ensures Reachable(n, Init(n))
  {
    var run := [Init(n)];
    assert MemExecution(n, run) && run[|run| - 1] == Init(n);
  }

  /** A writer spinning on ticket byte 0 enters while active_writer is 0. */
  lemma {:induction false} ZeroEnters(n: nat, s: Mem, i: nat)
    requires Reachable(n, s) && i < |s.pcs| && s.pcs[i] == Spinning(Writer, 0) && s.word == Pack(Fields(0, 0, 1))
    ensures Reachable(n, Mem(s.word, s.pcs[i := Inside(Writer)]))
  {
    hide Byte, Pack, Reachable;
    Counters(Fields(0, 0, 1));
    ReachStep(n, s, i, Writer);
  }

  lemma {:induction false} InitWord(n: nat)
    ensures Init(n).word == Pack(Fields(0, 0, 0))
  {
  }

  lemma {:induction false} CrowdOfOne(n: nat)
    requires n >= 1
    ensures Crowd(n, 1) == Mem(Pack(Fields(0, 0, 1)), Init(n).pcs[0 := Spinning(Writer, 0)][0 := Inside(Writer)])
  {
    var a, b := Crowd(n, 1).pcs, Init(n).pcs[0 := Spinning(Writer, 0)][0 := Inside(Writer)];
    assert |a| == n && |b| == n;
    forall i | 0 <= i < n ensures a[i] == b[i] {}
    assert a == b;
  }

  lemma {:induction false} FirstWriter(n: nat)
    requires n >= 1
    ensures Reachable(n, Crowd(n, 1))
  {
    hide Reachable, Pack;
    InitReachable(n);
    var s0, one := Init(n), 1;
    InitWord(n);
    DrawTwoSteps(n, s0, 0, 0);
    ZeroEnters(n, Mem(Pack(Fields(0, 0, one)), s0.pcs[0 := Spinning(Writer, 0)]), 0);
    CrowdOfOne(n);
  }

  lemma {:induction false} CrowdGathers(n: nat, k: nat)
    requires 1 <= k <= n && k <= 257
    ensures Reachable(n, Crowd(n, k))
  {
    hide Reachable, Pack;
    if k == 1 {
      FirstWriter(n);
    } else {
      CrowdGathers(n, k - 1);
      DivSucc(k - 1, 256);
      DrawTwoSteps(n, Crowd(n, k - 1), k - 1, (k - 1) % 256);
      assert Crowd(n, k - 1).pcs[k - 1 := Spinning(Writer, (k - 1) % 256)] == Crowd(n, k).pcs;
    }
  }

  /** The 257th ticket has the same byte as the first: its writer joins the first one inside. */
  lemma {:induction false} SecondWriter(n: nat) returns (s: Mem)
    requires n >= 257
    ensures Reachable(n, s) && Clash(s)
  {
    hide Reachable, Pack;
    CrowdGathers(n, 257);
    var crowd := Crowd(n, 257);
    ZeroEnters(n, crowd, 256);
    s := Mem(crowd.word, crowd.pcs[256 := Inside(Writer)]);
    assert In(s.pcs[0], Writer) && In(s.pcs[256], Writer);
  }

  lemma {:induction false} TwoWriters(n: nat)
    requires n >= 257
    ensures exists run :: MemExecution(n, run) && Clash(run[|run| - 1])
  {
    hide Clash, MemStep;
    var s := SecondWriter(n);
    var run :| MemExecution(n, run) && run[|run| - 1] == s;
  }

  /** The packed lock excludes writers in every execution exactly when at most 256 threads use it. */
  lemma {:induction false} ExclusiveUpTo256(n: nat)
    ensures (forall run :: MemExecution(n, run) ==> !Clash(run[|run| - 1])) <==> n <= 256
  {
    if n <= 256 {
      forall run | MemExecution(n, run) ensures !Clash(run[|run| - 1]) {
        var ls := Refines(n, run);
        NoClash(run[|run| - 1], ls[|run| - 1]);
      }
    } else {
      TwoWriters(n);
    }
  }
}
