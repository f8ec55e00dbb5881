/**
  The multiplexed log of SharedHashFile: appenders copy lines into one shared buffer under the lock, while the log
  thread writes the front of the buffer out, in pieces and without the lock, and then closes the gap.
 */
module SharedLog {
  import opened Bytes

  function Concat(lines: seq<seq<byte>>): seq<byte> {
    if lines == [] then [] else Concat(lines[..|lines| - 1]) + lines[|lines| - 1]
  }

  lemma {:induction false} ConcatMore(written: seq<byte>, pending: seq<byte>, lines: seq<seq<byte>>, line: seq<byte>)
    requires written + pending == Concat(lines)
    ensures written + (pending + line) == Concat(lines + [line])
  {
    assert (lines + [line])[..|lines|] == lines;
    assert written + (pending + line) == written + pending + line;
  }

  lemma {:induction false} SliceMore(was: seq<byte>, now: seq<byte>, from: nat, used: nat, line: seq<byte>)
    requires from <= used <= |was| && used + |line| <= |now|
    requires now[..used] == was[..used] && now[used..used + |line|] == line
    ensures now[from..used + |line|] == was[from..used] + line
  {
    assert now[from..used + |line|] == now[..used][from..] + now[used..used + |line|];
    assert was[..used][from..] == was[from..used];
  }

  /** When a line is taken: it is shorter than the buffer, and it and its prefix fit in what is free. */
  predicate Fits(line: seq<byte>, prefixLen: nat, used: nat, size: nat) {
    |line| < size && prefixLen + |line| + used <= size
  }

  /** One atomic step of an appender or of the log thread. */
  datatype Event =
    | Append(line: seq<byte>, prefixLen: nat)
    | Snapshot                                // the thread reads how much is used, under the lock
    | Write(n: nat)                           // one write() call that takes n bytes
    | Reposition                              // the thread closes the gap, under the lock
    | Stop                                    // the thread leaves its loop

  datatype Counters = Counters(used: nat, taken: nat, left: nat, running: bool)

  /** How a step moves the counters; a step of the thread that is not its turn is no step. */
  function After(c: Counters, e: Event, size: nat): Counters {
    match e
    case Append(line, prefixLen) => if Fits(line, prefixLen, c.used, size) then c.(used := c.used + |line|) else c
    case Snapshot => if c.running && c.taken == 0 then c.(taken := c.used, left := c.used) else c
    case Write(n) => c.(left := if n < c.left then c.left - n else 0)
    case Reposition => if c.running && c.left <= c.taken <= c.used
                       then Counters(c.used - (c.taken - c.left), 0, 0, true) else c
    case Stop => if c.running && c.taken == 0 then Counters(c.used, c.used, c.used, false) else c
  }

  function AfterAll(c: Counters, es: seq<Event>, size: nat): Counters {
    if es == [] then c else After(AfterAll(c, es[..|es| - 1], size), es[|es| - 1], size)
  }

  /** The lines taken in a run from c, in lock order. */
  function Accepted(c: Counters, es: seq<Event>, size: nat): seq<seq<byte>> {
    if es == [] then []
    else
      var e, before := es[|es| - 1], es[..|es| - 1];
      Accepted(c, before, size)
      + if e.Append? && Fits(e.line, e.prefixLen, AfterAll(c, before, size).used, size) then [e.line] else []
  }

  // ----- which lines wait for ever -----

  predicate Bounded(c: Counters, size: nat) { c.left <= c.taken <= c.used <= size }

  /** After the steps es, the next attempt to append the line takes it. */
  predicate TakenAfter(c: Counters, es: seq<Event>, line: seq<byte>, prefixLen: nat, size: nat) {
    Fits(line, prefixLen, AfterAll(c, es, size).used, size)
  }

  lemma {:induction false} AfterOne(c: Counters, es: seq<Event>, e: Event, size: nat)
    ensures AfterAll(c, es + [e], size) == After(AfterAll(c, es, size), e, size)
  {
    assert (es + [e])[..|es|] == es;
  }

  /** Two rounds of the log thread, if write() takes all it is offered: the rest of the snapshot, then what was
      appended since. */
  function TwoRounds(c: Counters): seq<Event> {
    [] + [Write(c.left)] + [Reposition] + [Snapshot] + [Write(c.used)] + [Reposition]
  }

  lemma {:induction false} Drains(c: Counters, size: nat)
    requires c.running && Bounded(c, size)
    ensures AfterAll(c, TwoRounds(c), size) == Counters(0, 0, 0, true)
  {
    hide AfterAll;
    var e1, e2, e3, e4 := [] + [Write(c.left)], [] + [Write(c.left)] + [Reposition],
                          [] + [Write(c.left)] + [Reposition] + [Snapshot],
                          [] + [Write(c.left)] + [Reposition] + [Snapshot] + [Write(c.used)];
    AfterNone(c, size);
    AfterOne(c, [], Write(c.left), size);
    AfterOne(c, e1, Reposition, size);
    AfterOne(c, e2, Snapshot, size);
    AfterOne(c, e3, Write(c.used), size);
    AfterOne(c, e4, Reposition, size);
  }

  lemma {:induction false} AfterNone(c: Counters, size: nat)
    ensures AfterAll(c, [], size) == c
  {
  }

  /** Once the thread has left its loop the buffer never shrinks. */
  lemma {:induction false} StoppedGrows(c: Counters, es: seq<Event>, size: nat)
    requires !c.running
    ensures AfterAll(c, es, size).used >= c.used && !AfterAll(c, es, size).running
  {
    if es != [] { StoppedGrows(c, es[..|es| - 1], size); }
  }

  /** From every state, a line that is shorter than the buffer can still be taken if and only if: while the thread
      runs, it fits the empty buffer with its prefix counted once more; afterwards, it fits now. If not, no schedule
      of appenders and the log thread ever lets it in. */
  lemma {:induction false} WaitsForEver(c: Counters, line: seq<byte>, prefixLen: nat, size: nat)
    requires Bounded(c, size) && |line| < size
    ensures (exists es :: TakenAfter(c, es, line, prefixLen, size))
            <==> prefixLen + |line| <= if c.running then size else size - c.used
  {
    if c.running {
      Drains(c, size);
      assert prefixLen + |line| <= size ==> TakenAfter(c, TwoRounds(c), line, prefixLen, size);
    } else {
      forall es ensures TakenAfter(c, es, line, prefixLen, size) ==> Fits(line, prefixLen, c.used, size) {
        StoppedGrows(c, es, size);
      }
      AfterNone(c, size);
      assert Fits(line, prefixLen, c.used, size) ==> TakenAfter(c, [], line, prefixLen, size);
    }
  }

  /** A line of 96 bytes that begins with its prefix of 40 is never taken by a new log of 128 bytes, which holds
      nothing else. */
  lemma {:induction false} LineNeverTaken(line: seq<byte>, es: seq<Event>)
    requires |line| == 96
    ensures !TakenAfter(Counters(0, 0, 0, true), es, line, 40, 128)
  {
    WaitsForEver(Counters(0, 0, 0, true), line, 40, 128);
  }

  class Log {
    const size: nat
    const bytes: array<byte>
    var used: nat
    // of the log thread
    var taken: nat              // the snapshot of `used`, 0 between rounds
    var left: nat               // how much of the snapshot is not yet written
    var running: bool
    // what has happened
    ghost var written: seq<byte>
    ghost var lines: seq<seq<byte>>

    ghost predicate InBounds()
      reads this
    {
      left <= taken <= used <= size == bytes.Length
    }

    function Now(): Counters
      reads this
    {
      Counters(used, taken, left, running)
    }

    /** The bytes not yet written. */
    ghost function Pending(): seq<byte>
      requires InBounds()
      reads this, bytes
    {
      bytes[taken - left..used]
    }

    /** The stream is intact: no byte of an accepted line is lost, repeated or out of place. */
    ghost predicate Valid()
      reads this, bytes
    {
      InBounds() && written + Pending() == Concat(lines)
    }

    /** shf_log_thread_new. */
    constructor (size: nat)
      requires size > 0
      ensures Valid() && fresh(bytes) && this.size == size && lines == [] && running
    {
      this.size := size;
      bytes := new byte[size](_ => 0);
      used, taken, left, running := 0, 0, 0, true;
      written, lines := [], [];
    }

    method Copy(line: seq<byte>)
      requires used + |line| <= bytes.Length
      modifies bytes
      ensures bytes[..][..used] == old(bytes[..])[..used] && bytes[..][used..used + |line|] == line
    {
      for i := 0 to |line|
        invariant bytes[..used] == old(bytes[..used])
        invariant bytes[used..used + i] == line[..i]
      {
        bytes[used + i] := line[i];
        assert bytes[used..used + i + 1] == bytes[used..used + i] + [line[i]] == line[..i + 1];
      }
    }

    /** One round of shf_log_append: takes the line, or leaves it to be tried again. */
    method TryAppend(line: seq<byte>, prefixLen: nat) returns (took: bool)
      requires Valid()
      modifies this`used, this`lines, bytes
      ensures Valid() && took == Fits(line, prefixLen, old(used), size)
      ensures took <==> |line| < size && prefixLen + |line| <= size - old(used)
      ensures lines == if took then old(lines) + [line] else old(lines)
      ensures used == if took then old(used) + |line| else old(used)
    {
      hide Concat;
      took := false;
      if |line| >= size {
        return;
      }
      if size - used >= prefixLen + |line| {
        ghost var was := bytes[..];
        Copy(line);
        SliceMore(was, bytes[..], taken - left, used, line);
        ConcatMore(written, was[taken - left..used], lines, line);
        used := used + |line|;
        lines := lines + [line];
        assert Pending() == bytes[..][taken - left..used];
        took := true;
      }
    }

    method TakeSnapshot()
      requires Valid() && running && taken == 0
      modifies this`taken, this`left
      ensures Valid() && taken == left == used
    {
      taken, left := used, used;
    }

    /** write() took n of the bytes it was offered; appenders may have been at work since the snapshot. */
    method WriteSome(n: nat)
      requires Valid() && n <= left
      modifies this`left, this`written
      ensures Valid() && left == old(left) - n
      ensures written == old(written) + bytes[taken - old(left)..taken - left]
    {
      ghost var from := taken - left;
      assert bytes[from..used] == bytes[from..from + n] + bytes[from + n..used];
      written := written + bytes[from..from + n];
      left := left - n;
    }

    /** memmove down to the start of the buffer. */
    method MoveDown(from: nat, n: nat)
      requires from + n <= bytes.Length
      modifies bytes
      ensures bytes[..n] == old(bytes[from..from + n])
    {
      for i := 0 to n
        invariant forall k :: 0 <= k < i ==> bytes[k] == old(bytes[from + k])
        invariant forall k :: i <= k < bytes.Length ==> bytes[k] == old(bytes[k])
      {
        bytes[i] := bytes[from + i];
      }
    }

    /** Closes the gap that the written bytes left. */
    method CloseGap()
      requires Valid() && running
      modifies this`used, this`taken, this`left, bytes
      ensures Valid() && taken == left == 0 && used == old(used) - (old(taken) - old(left))
    {
      if taken != left {
        var during := used - taken;
        var from := taken - left;
        MoveDown(from, left + during);
        used := left + during;
      }
      taken, left := 0, 0;
    }

    /** The thread leaves its loop; what is left it offers to write() once more. */
    method CloseDown()
      requires Valid() && running && taken == 0
      modifies this`running, this`taken, this`left
      ensures Valid() && !running && taken == left == used
    {
      running := false;
      taken, left := used, used;
    }

    /** Everything accepted has been written if and only if the last write() loop emptied its snapshot and nothing
        was appended after it. */
    lemma {:induction false} AllWritten()
      requires Valid()
      ensures written == Concat(lines) <==> left == 0 && used == taken
    {
      assert |written + Pending()| == |written| + |Pending()|;
      assert |Pending()| == 0 ==> written + Pending() == written;
    }

    /** One step of a schedule. */
    method Step(e: Event)
      requires Valid()
      modifies this, bytes
      ensures Valid() && Now() == After(old(Now()), e, size)
      ensures lines == old(lines) + if e.Append? && Fits(e.line, e.prefixLen, old(used), size) then [e.line] else []
    {
      match e {
        case Append(line, prefixLen) => var took := TryAppend(line, prefixLen);
        case Snapshot => if running && taken == 0 { TakeSnapshot(); }
        case Write(n) => WriteSome(if n < left then n else left);
        case Reposition => if running { CloseGap(); }
        case Stop => if running && taken == 0 { CloseDown(); }
      }
    }

    /** Any schedule of appenders and the log thread: the stream stays intact, and it holds exactly the lines that
        fitted when their turn came, in lock order. */
    method Interleave(es: seq<Event>)
      requires Valid()
      modifies this, bytes
      ensures Valid() && Now() == AfterAll(old(Now()), es, size)
      ensures lines == old(lines) + Accepted(old(Now()), es, size)
    {
      hide After, Fits;
      for i := 0 to |es|
        invariant Valid() && Now() == AfterAll(old(Now()), es[..i], size)
        invariant lines == old(lines) + Accepted(old(Now()), es[..i], size)
      {
        Step(es[i]);
        assert es[..i + 1][..i] == es[..i];
      }
      assert es[..|es|] == es;
    }
  }
}
