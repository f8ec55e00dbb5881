/**
  One tab of a SharedHashFile window: 512 rows of 16 slots, and the data part the slots point into.
  Here are its state as a value, the invariant that ties slots, bytes and byte counters together,
  and what appending and deleting do to both.
 */
module Tabs {
  import opened Bytes
  import opened Records

  const ROWS: nat := 512
  const REFS: nat := 16
  const PAGE: nat := 4096
  const HEADER: nat := 65556        // 20 bytes of counters and 512 * 16 slots of 8 bytes

  datatype Option<+T> = None | Some(value: T)

  /** A key reference: the tab2 and fingerprint of its key, and where its record starts (0 if unused). */
  datatype Slot = Slot(tab: nat, rnd: nat, pos: nat)

  datatype Entry = Entry(tab: nat, rnd: nat, key: seq<byte>, val: seq<byte>)

  datatype TabState = TabState(size: nat, used: nat, dataFree: nat, dataUsed: nat,
                               rows: seq<seq<Slot>>, data: seq<byte>)

  predicate Owns(rec: Rec, r: nat, c: nat) {
    rec.live && rec.row == r && rec.ref == c
  }

  ghost predicate GridOk(rows: seq<seq<Slot>>) {
    |rows| == ROWS && forall r :: 0 <= r < ROWS ==> |rows[r]| == REFS
  }

  ghost predicate HasOwner(log: seq<Rec>, r: nat, c: nat) {
    exists i :: 0 <= i < |log| && Owns(log[i], r, c)
  }

  /** Each live record is pointed at by the slot that owns it. */
  ghost predicate PointedAt(rows: seq<seq<Slot>>, log: seq<Rec>)
    requires GridOk(rows)
  {
    forall i :: 0 <= i < |log| && log[i].live ==>
      log[i].row < ROWS && log[i].ref < REFS
      && rows[log[i].row][log[i].ref].pos == HEADER + Off(log, i)
  }

  /** Each used slot owns a live record. */
  ghost predicate Owners(rows: seq<seq<Slot>>, log: seq<Rec>)
    requires GridOk(rows)
  {
    forall r, c :: 0 <= r < ROWS && 0 <= c < REFS && rows[r][c].pos != 0 ==> HasOwner(log, r, c)
  }

  ghost predicate SlotsMatch(rows: seq<seq<Slot>>, log: seq<Rec>) {
    GridOk(rows) && PointedAt(rows, log) && Owners(rows, log)
  }

  /** A tab and the log of records it stores; the counters are the log's live and deleted bytes. */
  ghost predicate Represents(v: TabState, log: seq<Rec>) {
    && SlotsMatch(v.rows, log)
    && DataMatches(v.data, log)
    && v.size == HEADER + |v.data| && v.size % PAGE == 0
    && v.used == HEADER + Off(log, |log|)
    && v.dataUsed == LiveBytes(log)
    && v.dataFree == DeadBytes(log)
  }

  /** What a lookup that lands on slot (r, c) reads from the bytes. */
  function View(v: TabState, r: nat, c: nat): Option<Entry>
    requires r < |v.rows| && c < |v.rows[r]|
  {
    var s := v.rows[r][c];
    if s.pos < HEADER || !Readable(v.data, s.pos - HEADER) then None
    else Some(Entry(s.tab, s.rnd, KeyAt(v.data, s.pos - HEADER), ValAt(v.data, s.pos - HEADER)))
  }

  ghost predicate Shaped(v: TabState) {
    GridOk(v.rows) && HEADER <= v.used <= v.size && |v.data| == v.size - HEADER
  }

  ghost predicate InGrid(v: TabState, r: int, c: int) {
    0 <= r < ROWS && 0 <= c < REFS && Shaped(v)
  }

  lemma {:induction false} ViewOwned(v: TabState, log: seq<Rec>, i: nat)
    requires Represents(v, log) && i < |log| && log[i].live
    ensures var s := v.rows[log[i].row][log[i].ref];
            && s.pos == HEADER + Off(log, i)
            && View(v, log[i].row, log[i].ref) == Some(Entry(s.tab, s.rnd, log[i].key, log[i].val))
  {
    var s := v.rows[log[i].row][log[i].ref];
    assert s.pos == HEADER + Off(log, i);
    var o := s.pos - HEADER;
    assert Readable(v.data, o) && KeyAt(v.data, o) == log[i].key && ValAt(v.data, o) == log[i].val by {
      ReadLog(v.data, log, i);
    }
  }

  /** Under the invariant a slot is in use exactly when a lookup reads an entry there. */
  lemma {:induction false} ViewUsed(v: TabState, log: seq<Rec>, r: nat, c: nat)
    requires Represents(v, log) && InGrid(v, r, c)
    ensures v.rows[r][c].pos != 0 <==> View(v, r, c).Some?
    ensures View(v, r, c).Some? ==> HasOwner(log, r, c)
  {
    if v.rows[r][c].pos != 0 {
      assert HasOwner(log, r, c);
      var i :| 0 <= i < |log| && Owns(log[i], r, c);
      ViewOwned(v, log, i);
    }
  }

  /** No two live records of a tab overlap, so a slot owns one record only. */
  lemma {:induction false} OwnerUnique(rows: seq<seq<Slot>>, log: seq<Rec>, i: nat, j: nat)
    requires GridOk(rows) && PointedAt(rows, log) && i < |log| && j < |log|
    requires log[i].live && log[j].live && log[i].row == log[j].row && log[i].ref == log[j].ref
    ensures i == j
  {
    if i < j { OffMonotone(log, i, j); }
    if j < i { OffMonotone(log, j, i); }
  }

  // ----- growing -----

  function ModPage(bytes: nat): (n: nat)
    requires bytes > 0
    ensures n % PAGE == 0 && bytes <= n < bytes + PAGE
  {
    ((bytes - 1) / PAGE + 1) * PAGE
  }

  /** The size of a tab once `need` more bytes have been asked for. */
  function Grown(size: nat, used: nat, need: nat, factor: nat): (n: nat)
    requires HEADER <= used <= size
  {
    if need > size - used then ModPage(size + need * factor) else size
  }

  /** Growing makes room for the append exactly when the growth factor is not zero or room was there. */
  lemma {:induction false} GrowthFits(size: nat, used: nat, need: nat, factor: nat)
    requires HEADER <= used <= size && size % PAGE == 0
    ensures used + need <= Grown(size, used, need, factor) <==> factor >= 1 || used + need <= size
    ensures Grown(size, used, need, factor) >= size && Grown(size, used, need, factor) % PAGE == 0
    ensures used + need <= size ==> Grown(size, used, need, factor) == size
    ensures used + need > size ==>
              size + need * factor <= Grown(size, used, need, factor) < size + need * factor + 4096
  {
    if factor >= 1 {
      assert need * factor >= need;
    } else {
      assert need * factor == 0;
    }
  }

  // ----- the counters in 32 bits -----

  /** The size, the used length and the live bytes of a tab. */
  datatype Counters = Counters(size: nat, used: nat, dataUsed: nat)

  function AppendedCounters(c: Counters, need: nat, factor: nat): Counters
    requires HEADER <= c.used <= c.size
  {
    Counters(Grown(c.size, c.used, need, factor), c.used + need, c.dataUsed + need)
  }

  /** What 32-bit fields keep. */
  function Stored32(c: Counters): Counters { Counters(c.size % U32, c.used % U32, c.dataUsed % U32) }

  /** The two bounds that an append asserts, in 32-bit arithmetic. */
  predicate Asserted(c: Counters, keyLen: nat, valLen: nat, factor: nat)
    requires HEADER <= c.used <= c.size
  {
    var size := Stored32(AppendedCounters(c, 9 + keyLen + valLen, factor)).size;
    (c.used + 5 + keyLen) % U32 <= size && (c.used + 9 + keyLen + valLen) % U32 <= size
  }

  /** The 32-bit fields of a tab hold the counters after an append exactly when it does not make the tab grow to
      4 GiB; and then what it asserts is true. */
  lemma {:induction false} Within32Bits(c: Counters, keyLen: nat, valLen: nat, factor: nat)
    requires HEADER <= c.used <= c.size < U32 && c.size % PAGE == 0 && c.dataUsed <= c.used && factor >= 1
    ensures var c' := AppendedCounters(c, 9 + keyLen + valLen, factor);
            && (Stored32(c') == c' <==> c'.size < U32)
            && (c'.size < U32 ==> Asserted(c, keyLen, valLen, factor))
  {
    hide Grown;
    var c' := AppendedCounters(c, 9 + keyLen + valLen, factor);
    GrowthFits(c.size, c.used, 9 + keyLen + valLen, factor);
    Fits32(c'.size);
    Fits32(c'.used);
    Fits32(c'.dataUsed);
    Fits32(c.used + 5 + keyLen);
  }

  lemma {:induction false} Fits32(x: nat)
    ensures x % U32 == x <==> x < U32
  {
  }

  /** A tab of 4 GiB less a page that is full cannot take another record: the size is stored as 0, and the append's
      own assertion stops it. */
  lemma {:induction false} FullTab()
    ensures var c := Counters(U32 - PAGE, U32 - PAGE, U32 - PAGE - HEADER);
            && c.size % PAGE == 0 && AppendedCounters(c, 10, 1).size == U32
            && Stored32(AppendedCounters(c, 10, 1)).size == 0 && !Asserted(c, 1, 0, 1)
  {
  }

  // ----- appending a record for a free slot -----

  function Zeros(n: nat): (s: seq<byte>)
    ensures |s| == n && forall i :: 0 <= i < n ==> s[i] == 0
  {
    seq(n, i => 0)
  }

  function Lengthened(v: TabState, size: nat): TabState
    requires v.size <= size
  {
    v.(size := size, data := v.data + Zeros(size - v.size))
  }

  /** A longer file holds the same records and reads the same. */
  lemma {:induction false} LengthenedSame(v: TabState, log: seq<Rec>, size: nat)
    requires Represents(v, log) && v.size <= size && size % PAGE == 0
    ensures Represents(Lengthened(v, size), log)
    ensures forall a, b :: 0 <= a < ROWS && 0 <= b < REFS ==> View(Lengthened(v, size), a, b) == View(v, a, b)
  {
    GrownData(v.data, log, Zeros(size - v.size));
    var v' := Lengthened(v, size);
    forall a, b | 0 <= a < ROWS && 0 <= b < REFS ensures View(v', a, b) == View(v, a, b) {
      if v.rows[a][b].pos != 0 {
        assert HasOwner(log, a, b);
        var i :| 0 <= i < |log| && Owns(log[i], a, b);
        ViewOwned(v, log, i);
        ViewOwned(v', log, i);
      }
    }
  }

  function SetSlot(rows: seq<seq<Slot>>, r: nat, c: nat, s: Slot): (rows': seq<seq<Slot>>)
    requires r < |rows| && c < |rows[r]|
    ensures |rows'| == |rows| && forall i :: 0 <= i < |rows| ==> |rows'[i]| == |rows[i]|
    ensures forall i, j :: 0 <= i < |rows| && 0 <= j < |rows[i]| ==>
              rows'[i][j] == if i == r && j == c then s else rows[i][j]
  {
    rows[r := rows[r][c := s]]
  }

  ghost predicate RoomFor(v: TabState, e: Entry) {
    v.used + 9 + |e.key| + |e.val| <= v.size && Storable(e.key, e.val)
  }

  function Appended(v: TabState, r: nat, c: nat, e: Entry): (v': TabState)
    requires InGrid(v, r, c) && RoomFor(v, e)
  {
    var need := 9 + |e.key| + |e.val|;
    TabState(v.size, v.used + need, v.dataFree, v.dataUsed + need,
             SetSlot(v.rows, r, c, Slot(e.tab, e.rnd, v.used)),
             Splice(v.data, v.used - HEADER, Enc(Rec(r, c, true, e.key, e.val))))
  }

  lemma {:induction false} AppendedPointers(rows: seq<seq<Slot>>, log: seq<Rec>, rec: Rec, s: Slot)
    requires GridOk(rows) && PointedAt(rows, log) && rec.live && rec.row < ROWS && rec.ref < REFS
    requires rows[rec.row][rec.ref].pos == 0 && s.pos == HEADER + Off(log, |log|)
    ensures PointedAt(SetSlot(rows, rec.row, rec.ref, s), log + [rec])
  {
    forall i | 0 <= i <= |log| ensures Off(log + [rec], i) == Off(log, i) {
      OffSameSizes(log + [rec], log, i);
    }
  }

  lemma {:induction false} AppendedOwners(rows: seq<seq<Slot>>, log: seq<Rec>, rec: Rec, s: Slot)
    requires GridOk(rows) && Owners(rows, log) && rec.live && rec.row < ROWS && rec.ref < REFS
    ensures Owners(SetSlot(rows, rec.row, rec.ref, s), log + [rec])
  {
    var rows': seq<seq<Slot>>, log' := SetSlot(rows, rec.row, rec.ref, s), log + [rec];
    forall a, b | 0 <= a < ROWS && 0 <= b < REFS && rows'[a][b].pos != 0 ensures HasOwner(log', a, b) {
      if a == rec.row && b == rec.ref {
        assert Owns(log'[|log|], a, b);
      } else {
        assert HasOwner(log, a, b);
        var i :| 0 <= i < |log| && Owns(log[i], a, b);
        assert Owns(log'[i], a, b);
      }
    }
  }

  lemma {:induction false} AppendedRepresents(v: TabState, log: seq<Rec>, r: nat, c: nat, e: Entry)
    requires Represents(v, log) && InGrid(v, r, c) && RoomFor(v, e)
    requires v.rows[r][c].pos == 0
    ensures Represents(Appended(v, r, c, e), log + [Rec(r, c, true, e.key, e.val)])
  {
    hide PointedAt, Owners, DataMatches, Enc;
    var rec := Rec(r, c, true, e.key, e.val);
    var v', log' := Appended(v, r, c, e), log + [rec];
    assert SlotsMatch(v'.rows, log') by {
      AppendedPointers(v.rows, log, rec, Slot(e.tab, e.rnd, v.used));
      AppendedOwners(v.rows, log, rec, Slot(e.tab, e.rnd, v.used));
    }
    assert v'.data == Splice(v.data, Off(log, |log|), Enc(rec));
    assert DataMatches(v'.data, log') by { AppendedData(v.data, log, rec); }
    assert v'.used == HEADER + Off(log', |log'|) by { OffSameSizes(log', log, |log|); }
    BytesAppend(log, rec);
  }

  /** Appending adds one entry at its slot and leaves what every other slot reads. */
  lemma {:induction false} AppendedView(v: TabState, log: seq<Rec>, r: nat, c: nat, e: Entry,
                                        a: nat, b: nat)
    requires Represents(v, log) && InGrid(v, r, c) && RoomFor(v, e)
    requires v.rows[r][c].pos == 0 && a < ROWS && b < REFS
    ensures var v' := Appended(v, r, c, e);
            Shaped(v') && View(v', a, b) == if a == r && b == c then Some(e) else View(v, a, b)
  {
    var rec := Rec(r, c, true, e.key, e.val);
    var v', log' := Appended(v, r, c, e), log + [rec];
    AppendedRepresents(v, log, r, c, e);
    if a == r && b == c {
      ViewOwned(v', log', |log|);
    } else if v.rows[a][b].pos != 0 {
      assert HasOwner(log, a, b);
      var i :| 0 <= i < |log| && Owns(log[i], a, b);
      ViewOwned(v, log, i);
      assert log'[i] == log[i];
      ViewOwned(v', log', i);
    }
  }

  lemma {:induction false} AppendedAll(v: TabState, log: seq<Rec>, r: nat, c: nat, e: Entry)
    requires Represents(v, log) && InGrid(v, r, c) && RoomFor(v, e)
    requires v.rows[r][c].pos == 0
    ensures var v' := Appended(v, r, c, e);
            && Represents(v', log + [Rec(r, c, true, e.key, e.val)])
            && forall a, b :: 0 <= a < ROWS && 0 <= b < REFS ==>
                 View(v', a, b) == if a == r && b == c then Some(e) else View(v, a, b)
  {
    AppendedRepresents(v, log, r, c, e);
    var v' := Appended(v, r, c, e);
    forall a, b | 0 <= a < ROWS && 0 <= b < REFS
      ensures View(v', a, b) == if a == r && b == c then Some(e) else View(v, a, b)
    {
      AppendedView(v, log, r, c, e, a, b);
    }
  }

  // ----- marking a record as deleted -----

  /** A used slot, and lengths of its key and value that the counters can account for. */
  ghost predicate CanDelete(v: TabState, r: nat, c: nat, keyLen: nat, valLen: nat) {
    && InGrid(v, r, c)
    && HEADER <= v.rows[r][c].pos && v.rows[r][c].pos + 5 <= v.size
    && keyLen + valLen < U32 && 9 + keyLen + valLen <= v.dataUsed
  }

  function Deleted(v: TabState, r: nat, c: nat, keyLen: nat, valLen: nat): (v': TabState)
    requires CanDelete(v, r, c, keyLen, valLen)
  {
    var s := v.rows[r][c];
    var z := 9 + keyLen + valLen;
    v.(data := Splice(v.data, s.pos - HEADER, DeadPrefix(keyLen, valLen)),
       dataUsed := v.dataUsed - z, dataFree := v.dataFree + z,
       rows := SetSlot(v.rows, r, c, s.(pos := 0)))
  }

  lemma {:induction false} DeletedPointers(rows: seq<seq<Slot>>, log: seq<Rec>, i: nat, s: Slot)
    requires GridOk(rows) && PointedAt(rows, log) && i < |log| && log[i].live
    ensures PointedAt(SetSlot(rows, log[i].row, log[i].ref, s), log[i := Dead(log[i])])
  {
    var log' := log[i := Dead(log[i])];
    forall j | 0 <= j < |log'| && log'[j].live
      ensures Off(log', j) == Off(log, j) && (log[j].row != log[i].row || log[j].ref != log[i].ref)
    {
      OffSameSizes(log', log, j);
      if log[j].row == log[i].row && log[j].ref == log[i].ref { OwnerUnique(rows, log, i, j); }
    }
  }

  lemma {:induction false} DeletedOwners(rows: seq<seq<Slot>>, log: seq<Rec>, i: nat, s: Slot)
    requires SlotsMatch(rows, log) && i < |log| && log[i].live && s.pos == 0
    ensures Owners(SetSlot(rows, log[i].row, log[i].ref, s), log[i := Dead(log[i])])
  {
    var rows': seq<seq<Slot>>, log' := SetSlot(rows, log[i].row, log[i].ref, s), log[i := Dead(log[i])];
    forall a, b | 0 <= a < ROWS && 0 <= b < REFS && rows'[a][b].pos != 0 ensures HasOwner(log', a, b) {
      assert HasOwner(log, a, b);
      var j :| 0 <= j < |log| && Owns(log[j], a, b);
      assert j != i && Owns(log'[j], a, b);
    }
  }

  lemma {:induction false} LiveDeletable(v: TabState, log: seq<Rec>, i: nat)
    requires Represents(v, log) && i < |log| && log[i].live
    ensures CanDelete(v, log[i].row, log[i].ref, |log[i].key|, |log[i].val|)
    ensures v.rows[log[i].row][log[i].ref].pos == HEADER + Off(log, i)
  {
    LiveAtLeast(log, i);
    assert Stores(v.data, log, i);
  }

  lemma {:induction false} DeletedRepresents(v: TabState, log: seq<Rec>, i: nat)
    requires Represents(v, log) && i < |log| && log[i].live
    ensures CanDelete(v, log[i].row, log[i].ref, |log[i].key|, |log[i].val|)
    ensures Represents(Deleted(v, log[i].row, log[i].ref, |log[i].key|, |log[i].val|), log[i := Dead(log[i])])
  {
    var r, c, k, l := log[i].row, log[i].ref, |log[i].key|, |log[i].val|;
    LiveDeletable(v, log, i);
    var v', log' := Deleted(v, r, c, k, l), log[i := Dead(log[i])];
    assert DataMatches(v'.data, log') by { DeletedData(v.data, log, i); }
    assert SlotsMatch(v'.rows, log') by {
      DeletedPointers(v.rows, log, i, v.rows[r][c].(pos := 0));
      DeletedOwners(v.rows, log, i, v.rows[r][c].(pos := 0));
    }
    assert v'.used == HEADER + Off(log', |log'|) by { OffSameSizes(log', log, |log|); }
    BytesDelete(log, i);
  }

  /** Deleting empties one slot and leaves what every other slot reads. */
  lemma {:induction false} DeletedView(v: TabState, log: seq<Rec>, i: nat, a: nat, b: nat)
    requires Represents(v, log) && i < |log| && log[i].live && a < ROWS && b < REFS
    ensures CanDelete(v, log[i].row, log[i].ref, |log[i].key|, |log[i].val|)
    ensures var v' := Deleted(v, log[i].row, log[i].ref, |log[i].key|, |log[i].val|);
            Shaped(v') && View(v', a, b) == if a == log[i].row && b == log[i].ref then None else View(v, a, b)
  {
    DeletedRepresents(v, log, i);
    var v', log' := Deleted(v, log[i].row, log[i].ref, |log[i].key|, |log[i].val|), log[i := Dead(log[i])];
    if (a != log[i].row || b != log[i].ref) && v.rows[a][b].pos != 0 {
      assert HasOwner(log, a, b);
      var j :| 0 <= j < |log| && Owns(log[j], a, b);
      ViewOwned(v, log, j);
      assert log'[j] == log[j];
      ViewOwned(v', log', j);
    }
  }

  lemma {:induction false} DeletedAll(v: TabState, log: seq<Rec>, r: nat, c: nat, keyLen: nat, valLen: nat)
    returns (log': seq<Rec>)
    requires Represents(v, log) && InGrid(v, r, c) && View(v, r, c).Some?
    requires keyLen == |View(v, r, c).value.key| && valLen == |View(v, r, c).value.val|
    ensures CanDelete(v, r, c, keyLen, valLen)
    ensures var v' := Deleted(v, r, c, keyLen, valLen);
            && Represents(v', log')
            && forall a, b :: 0 <= a < ROWS && 0 <= b < REFS ==>
                 View(v', a, b) == if a == r && b == c then None else View(v, a, b)
  {
    ViewUsed(v, log, r, c);
    var i :| 0 <= i < |log| && Owns(log[i], r, c);
    ViewOwned(v, log, i);
    DeletedRepresents(v, log, i);
    log' := log[i := Dead(log[i])];
    var v' := Deleted(v, r, c, keyLen, valLen);
    forall a, b | 0 <= a < ROWS && 0 <= b < REFS
      ensures View(v', a, b) == if a == r && b == c then None else View(v, a, b)
    {
      DeletedView(v, log, i, a, b);
    }
  }
}
