/**
  The tab file as an object updated in place: the append, delete and copy macros of SharedHashFile.
  Each method states what every slot reads afterwards.
 */
module TabFiles {
  import opened Bytes
  import opened Records
  import opened Tabs

  /** The bytes a put stores: the caller's, or reserved bytes, which a fresh file holds as zeros. */
  function Stored(val: Option<seq<byte>>, valLen: nat): (s: seq<byte>)
    requires val.Some? ==> |val.value| == valLen
    ensures |s| == valLen
  {
    if val.Some? then val.value else Zeros(valLen)
  }

  lemma {:induction false} SpliceSplice(d: seq<byte>, at: nat, a: seq<byte>, b: seq<byte>)
    requires at + |a| + |b| <= |d|
    ensures Splice(Splice(d, at, a), at + |a|, b) == Splice(d, at, a + b)
  {
    var s := Splice(d, at, a);
    assert s[..at + |a|] == d[..at] + a;
    assert s[at + |a| + |b|..] == d[at + |a| + |b|..];
  }

  /** Leaving zeros alone is writing zeros. */
  lemma {:induction false} SpliceZeros(d: seq<byte>, at: nat, a: seq<byte>, n: nat)
    requires at + |a| + n <= |d| && forall i :: at + |a| <= i < at + |a| + n ==> d[i] == 0
    ensures Splice(d, at, a) == Splice(d, at, a + Zeros(n))
  {
    var s, t := Splice(d, at, a), Splice(d, at, a + Zeros(n));
    forall i | 0 <= i < |d| ensures s[i] == t[i] {
      if at + |a| <= i < at + |a| + n { assert (a + Zeros(n))[i - at] == Zeros(n)[i - at - |a|]; }
    }
    assert s == t;
  }

  lemma {:induction false} FourSplices(d: seq<byte>, at: nat, a: seq<byte>, b: seq<byte>, c: seq<byte>, e: seq<byte>)
    requires at + |a| + |b| + |c| + |e| <= |d|
    ensures Splice(Splice(Splice(Splice(d, at, a), at + |a|, b), at + |a| + |b|, c), at + |a| + |b| + |c|, e)
            == Splice(d, at, a + b + c + e)
  {
    SpliceSplice(d, at, a, b);
    SpliceSplice(d, at, a + b, c);
    SpliceSplice(d, at, a + b + c, e);
  }

  lemma {:induction false} EncStored(rec: Rec)
    requires rec.live && Storable(rec.key, rec.val)
    ensures Enc(rec) == [STR32_TAG] + PutU32(|rec.key|) + rec.key + PutU32(|rec.val|) + rec.val
  {
  }

  /** The five stores of an append write the whole record; a reserved value costs no store. */
  method WriteRecord(data: seq<byte>, at: nat, key: seq<byte>, val: Option<seq<byte>>, valLen: nat,
                     ghost rec: Rec) returns (d: seq<byte>)
    requires val.Some? ==> |val.value| == valLen
    requires rec.live && rec.key == key && rec.val == Stored(val, valLen) && Storable(key, rec.val)
    requires at + Size(rec) <= |data| && forall i :: at <= i < |data| ==> data[i] == 0
    ensures d == Splice(data, at, Enc(rec))
  {
    d := Splice(data, at, [STR32_TAG]);
    d := Splice(d, at + 1, PutU32(|key|));
    d := Splice(d, at + 5, key);
    d := Splice(d, at + 5 + |key|, PutU32(valLen));
    ghost var head := [STR32_TAG] + PutU32(|key|) + key + PutU32(valLen);
    FourSplices(data, at, [STR32_TAG], PutU32(|key|), key, PutU32(valLen));
    assert d == Splice(data, at, head);
    if val.Some? {
      SpliceSplice(data, at, head, val.value);
      d := Splice(d, at + 9 + |key|, val.value);
    } else {
      SpliceZeros(data, at, head, valLen);
    }
    EncStored(rec);
  }

  /** What a lookup reads at each slot of a tab. */
  type Grid = seq<seq<Option<Entry>>>

  ghost predicate GridShape(g: Grid) {
    |g| == ROWS && forall r :: 0 <= r < ROWS ==> |g[r]| == REFS
  }

  ghost function EmptyGrid(): (g: Grid)
    ensures GridShape(g) && forall r, c :: 0 <= r < ROWS && 0 <= c < REFS ==> g[r][c] == None
  {
    seq(ROWS, i => seq(REFS, j => None))
  }

  ghost function SetView(g: Grid, r: nat, c: nat, e: Option<Entry>): (g': Grid)
    requires GridShape(g) && r < ROWS && c < REFS
    ensures GridShape(g')
    ensures forall a, b :: 0 <= a < ROWS && 0 <= b < REFS ==>
              g'[a][b] == if a == r && b == c then e else g[a][b]
  {
    g[r := g[r][c := e]]
  }

  /** The grid `g` is what the bytes of the tab `v` read as. */
  ghost predicate Reads(v: TabState, g: Grid)
    requires GridOk(v.rows)
  {
    && GridShape(g)
    && forall r, c {:trigger View(v, r, c)} :: 0 <= r < ROWS && 0 <= c < REFS ==> View(v, r, c) == g[r][c]
  }

  /** The bytes of the record a slot refers to. */
  function EntryBytes(e: Option<Entry>): nat {
    match e
    case None => 0
    case Some(entry) => 9 + |entry.key| + |entry.val|
  }

  function RowBytes(row: seq<Option<Entry>>): nat {
    if row == [] then 0 else RowBytes(row[..|row| - 1]) + EntryBytes(row[|row| - 1])
  }

  /** The bytes of all records that slots refer to. */
  function GridBytes(g: Grid): nat {
    if g == [] then 0 else GridBytes(g[..|g| - 1]) + RowBytes(g[|g| - 1])
  }

  lemma {:induction false} RowSet(row: seq<Option<Entry>>, c: nat, e: Option<Entry>)
    requires c < |row|
    ensures RowBytes(row[c := e]) == RowBytes(row) - EntryBytes(row[c]) + EntryBytes(e)
  {
    var n := |row| - 1;
    if c == n {
      assert row[c := e][..n] == row[..n];
    } else {
      RowSet(row[..n], c, e);
      assert row[c := e][..n] == row[..n][c := e];
    }
  }

  lemma {:induction false} GridSetRow(g: Grid, r: nat, row: seq<Option<Entry>>)
    requires r < |g|
    ensures GridBytes(g[r := row]) == GridBytes(g) - RowBytes(g[r]) + RowBytes(row)
  {
    var n := |g| - 1;
    if r == n {
      assert g[r := row][..n] == g[..n];
    } else {
      GridSetRow(g[..n], r, row);
      assert g[r := row][..n] == g[..n][r := row];
    }
  }

  lemma {:induction false} GridSet(g: Grid, r: nat, c: nat, e: Option<Entry>)
    requires GridShape(g) && r < ROWS && c < REFS
    ensures GridBytes(SetView(g, r, c, e)) == GridBytes(g) - EntryBytes(g[r][c]) + EntryBytes(e)
  {
    hide RowBytes, GridBytes;
    RowSet(g[r], c, e);
    GridSetRow(g, r, g[r][c := e]);
  }

  lemma {:induction false} RowEmpty(row: seq<Option<Entry>>)
    requires forall c :: 0 <= c < |row| ==> row[c] == None
    ensures RowBytes(row) == 0
  {
    if row != [] { RowEmpty(row[..|row| - 1]); }
  }

  lemma {:induction false} GridEmpty(g: Grid)
    requires forall r, c :: 0 <= r < |g| && 0 <= c < |g[r]| ==> g[r][c] == None
    ensures GridBytes(g) == 0
  {
    if g != [] {
      GridEmpty(g[..|g| - 1]);
      RowEmpty(g[|g| - 1]);
    }
  }

  /** Log, bytes and counters of a tab agree, its slots read as g, and the used bytes are those of the entries. */
  ghost predicate TabInv(v: TabState, log: seq<Rec>, g: Grid) {
    Represents(v, log) && Reads(v, g) && v.dataUsed == GridBytes(g)
  }

  lemma {:induction false} AppendReads(v: TabState, log: seq<Rec>, g: Grid, size: nat, r: nat, c: nat, e: Entry)
    requires TabInv(v, log, g) && InGrid(v, r, c) && g[r][c].None?
    requires v.size <= size && size % PAGE == 0 && RoomFor(Lengthened(v, size), e)
    ensures var v' := Appended(Lengthened(v, size), r, c, e);
            TabInv(v', log + [Rec(r, c, true, e.key, e.val)], SetView(g, r, c, Some(e)))
  {
    hide GridBytes;
    GridSet(g, r, c, Some(e));
    ViewUsed(v, log, r, c);
    LengthenedSame(v, log, size);
    AppendedAll(Lengthened(v, size), log, r, c, e);
  }

  lemma {:induction false} DeleteReads(v: TabState, log: seq<Rec>, g: Grid, r: nat, c: nat, keyLen: nat, valLen: nat)
    returns (log': seq<Rec>)
    requires TabInv(v, log, g) && InGrid(v, r, c) && g[r][c].Some?
    requires keyLen == |g[r][c].value.key| && valLen == |g[r][c].value.val|
    ensures CanDelete(v, r, c, keyLen, valLen)
    ensures var v' := Deleted(v, r, c, keyLen, valLen);
            TabInv(v', log', SetView(g, r, c, None))
  {
    hide GridBytes;
    GridSet(g, r, c, None);
    assert View(v, r, c) == g[r][c];
    log' := DeletedAll(v, log, r, c, keyLen, valLen);
  }

  /** The bounds that lookups assert hold at every used slot, and what is read there. */
  lemma {:induction false} UsedReadable(v: TabState, log: seq<Rec>, g: Grid, r: nat, c: nat)
    requires TabInv(v, log, g) && InGrid(v, r, c)
    ensures v.rows[r][c].pos != 0 <==> g[r][c].Some?
    ensures g[r][c].Some? ==>
              var s, e := v.rows[r][c], g[r][c].value;
              && HEADER <= s.pos < v.size && Readable(v.data, s.pos - HEADER)
              && e == Entry(s.tab, s.rnd, KeyAt(v.data, s.pos - HEADER), ValAt(v.data, s.pos - HEADER))
              && Storable(e.key, e.val)
  {
    hide DataMatches, PointedAt, Owners, LiveBytes, DeadBytes, Off, KeyAt, ValAt;
    assert View(v, r, c) == g[r][c];
    ViewUsed(v, log, r, c);
    if g[r][c].Some? {
      var i :| 0 <= i < |log| && Owns(log[i], r, c);
      ViewOwned(v, log, i);
      LiveStored(v, log, i);
    }
  }

  lemma {:induction false} LiveStored(v: TabState, log: seq<Rec>, i: nat)
    requires Represents(v, log) && i < |log| && log[i].live
    ensures Storable(log[i].key, log[i].val)
  {
    assert Stores(v.data, log, i);
  }

  // ----- space accounting -----

  /** Where the record of a used slot starts and ends in the file. */
  ghost predicate Occupies(v: TabState, g: Grid, r: nat, c: nat, lo: int, hi: int) {
    && GridOk(v.rows) && GridShape(g) && r < ROWS && c < REFS
    && g[r][c].Some? && lo == v.rows[r][c].pos && hi == lo + EntryBytes(g[r][c])
  }

  /** The records of two used slots share a byte. */
  ghost predicate Overlap(v: TabState, g: Grid, r: nat, c: nat, lo: int, hi: int,
                          r': nat, c': nat, lo': int, hi': int) {
    Occupies(v, g, r, c, lo, hi) && Occupies(v, g, r', c', lo', hi') && lo < hi' && lo' < hi
  }

  /** The record of a used slot is one of the log. */
  lemma {:induction false} OccupiesLog(v: TabState, log: seq<Rec>, g: Grid, r: nat, c: nat, lo: int, hi: int)
    returns (i: nat)
    requires TabInv(v, log, g) && Occupies(v, g, r, c, lo, hi)
    ensures i < |log| && Owns(log[i], r, c) && lo == HEADER + Off(log, i) && hi == lo + Size(log[i])
  {
    assert View(v, r, c) == g[r][c];
    ViewUsed(v, log, r, c);
    i :| 0 <= i < |log| && Owns(log[i], r, c);
    ViewOwned(v, log, i);
  }

  /** Records tile the data area up to `used`; those in use lie in it and do not overlap. */
  lemma {:induction false} SpaceAccounting(v: TabState, log: seq<Rec>, g: Grid)
    requires TabInv(v, log, g)
    ensures HEADER <= v.used <= v.size && v.used - HEADER == v.dataUsed + v.dataFree
    ensures forall r, c, lo, hi :: Occupies(v, g, r, c, lo, hi) ==> HEADER <= lo < hi <= v.used
    ensures forall r, c, lo, hi, r', c', lo', hi' :: Overlap(v, g, r, c, lo, hi, r', c', lo', hi') ==> r == r' && c == c'
  {
    BytesTotal(log, |log|);
    assert log[..|log|] == log;
    forall r, c, lo, hi | Occupies(v, g, r, c, lo, hi) ensures HEADER <= lo < hi <= v.used {
      var i := OccupiesLog(v, log, g, r, c, lo, hi);
      OffMonotone(log, i, |log|);
    }
    forall r, c, lo, hi, r', c', lo', hi' | Overlap(v, g, r, c, lo, hi, r', c', lo', hi') ensures r == r' && c == c' {
      var i := OccupiesLog(v, log, g, r, c, lo, hi);
      var j := OccupiesLog(v, log, g, r', c', lo', hi');
      if i < j {
        OffMonotone(log, i, j);
      } else if j < i {
        OffMonotone(log, j, i);
      }
    }
  }

  class Tab {
    var size: nat
    var used: nat
    var dataFree: nat
    var dataUsed: nat
    var rows: seq<seq<Slot>>
    var data: seq<byte>
    ghost var log: seq<Rec>
    ghost var view: Grid

    ghost function State(): TabState
      reads this
    {
      TabState(size, used, dataFree, dataUsed, rows, data)
    }

    ghost predicate Valid()
      reads this
    {
      GridShape(view) && TabInv(State(), log, view)
    }

    /** A new tab file: zeroed, and as long as its header rounded up to pages. */
    constructor ()
      ensures Valid() && dataFree == 0 && dataUsed == 0
      ensures view == EmptyGrid() && size == 17 * 4096 && used == 20 + 512 * 16 * 8
    {
      size := ModPage(HEADER);
      used := HEADER;
      dataFree, dataUsed := 0, 0;
      rows := seq(ROWS, i => seq(REFS, j => Slot(0, 0, 0)));
      data := Zeros(ModPage(HEADER) - HEADER);
      log := [];
      view := EmptyGrid();
      GridEmpty(EmptyGrid());
    }

    /** All that the stores of an append rely on. */
    ghost predicate Appendable()
      reads this
    {
      && Shaped(State()) && size % PAGE == 0
      && forall i :: used - HEADER <= i < |data| ==> data[i] == 0
    }

    lemma {:induction false} CanAppend()
      requires Valid()
      ensures Appendable()
    {
      hide Reads, GridBytes;
    }

    /** Makes room for an append; the bytes a longer file gains are zeros. */
    method Grow(factor: nat, dataNeeded: nat)
      requires Appendable() && factor >= 1
      modifies this`size, this`data
      ensures Appendable() && used + dataNeeded <= size
      ensures old(size) <= size == Grown(old(size), used, dataNeeded, factor)
      ensures data == old(data) + Zeros(size - old(size))
    {
      GrowthFits(size, used, dataNeeded, factor);
      if dataNeeded > size - used {
        var newSize := ModPage(size + dataNeeded * factor);
        data := data + Zeros(newSize - size);
        size := newSize;
      } else {
        assert data + Zeros(0) == data;
      }
    }

    /** The stores of an append: the record's bytes, the counters and the slot. */
    method Store(row: nat, ref: nat, tab2: nat, rnd: nat, key: seq<byte>, val: Option<seq<byte>>, valLen: nat)
      requires Appendable() && row < ROWS && ref < REFS
      requires val.Some? ==> |val.value| == valLen
      requires RoomFor(State(), Entry(tab2, rnd, key, Stored(val, valLen)))
      modifies this`used, this`dataUsed, this`rows, this`data
      ensures State() == Appended(old(State()), row, ref, Entry(tab2, rnd, key, Stored(val, valLen)))
    {
      var dataNeeded := 9 + |key| + valLen;
      data := WriteRecord(data, used - HEADER, key, val, valLen, Rec(row, ref, true, key, Stored(val, valLen)));
      rows := SetSlot(rows, row, ref, Slot(tab2, rnd, used));
      used := used + dataNeeded;
      dataUsed := dataUsed + dataNeeded;
    }

    /** Appends a key and value and makes the free slot (row, ref) refer to them. */
    method Append(factor: nat, row: nat, ref: nat, tab2: nat, rnd: nat,
                  key: seq<byte>, val: Option<seq<byte>>, valLen: nat)
      requires Valid() && factor >= 1 && row < ROWS && ref < REFS && view[row][ref].None?
      requires val.Some? ==> |val.value| == valLen
      requires Storable(key, Stored(val, valLen))
      modifies this
      ensures Valid() && dataFree == old(dataFree) && dataUsed == old(dataUsed) + 9 + |key| + valLen
      ensures view == SetView(old(view), row, ref, Some(Entry(tab2, rnd, key, Stored(val, valLen))))
      ensures HEADER <= old(used) <= old(size)
      ensures Counters(size, used, dataUsed)
              == AppendedCounters(Counters(old(size), old(used), old(dataUsed)), 9 + |key| + valLen, factor)
    {
      hide GridBytes, TabInv, View, Grown;
      ghost var v, e := State(), Entry(tab2, rnd, key, Stored(val, valLen));
      CanAppend();
      Grow(factor, 9 + |key| + valLen);
      assert State() == Lengthened(v, size);
      AppendReads(v, log, view, size, row, ref, e);
      ghost var v' := Appended(Lengthened(v, size), row, ref, e);
      Store(row, ref, tab2, rnd, key, val, valLen);
      log := log + [Rec(row, ref, true, key, e.val)];
      view := SetView(view, row, ref, Some(e));
      assert State() == v' && TabInv(v', log, view);
    }

    /** Marks the record of a used slot as deleted and frees the slot. */
    method MarkAsDeleted(row: nat, ref: nat, keyLen: nat, valLen: nat)
      requires Valid() && row < ROWS && ref < REFS && view[row][ref].Some?
      requires keyLen == |view[row][ref].value.key| && valLen == |view[row][ref].value.val|
      modifies this
      ensures Valid() && dataFree == old(dataFree) + 9 + keyLen + valLen
      ensures dataUsed == old(dataUsed) - (9 + keyLen + valLen)
      ensures view == SetView(old(view), row, ref, None)
    {
      hide GridBytes;
      log := DeleteReads(State(), log, view, row, ref, keyLen, valLen);
      var pos := rows[row][ref].pos;
      data := Splice(data, pos - HEADER, DeadPrefix(keyLen, valLen));
      dataUsed := dataUsed - (1 + 4 + keyLen + 4 + valLen);
      dataFree := dataFree + (1 + 4 + keyLen + 4 + valLen);
      rows := SetSlot(rows, row, ref, rows[row][ref].(pos := 0));
      assert State() == Deleted(old(State()), row, ref, keyLen, valLen);
      view := SetView(view, row, ref, None);
    }

    /** Reads a slot: it is in use exactly when its position is not 0. */
    method Ref(row: nat, ref: nat) returns (s: Slot)
      requires Valid() && row < ROWS && ref < REFS
      ensures s.pos != 0 <==> view[row][ref].Some?
      ensures s.pos != 0 ==> s.tab == view[row][ref].value.tab && s.rnd == view[row][ref].value.rnd
    {
      UsedReadable(State(), log, view, row, ref);
      s := rows[row][ref];
    }

    /** Reads the key and the value a used slot refers to; the bounds the source asserts hold. */
    method Read(row: nat, ref: nat) returns (key: seq<byte>, val: seq<byte>)
      requires Valid() && row < ROWS && ref < REFS && view[row][ref].Some?
      ensures key == view[row][ref].value.key && val == view[row][ref].value.val
      ensures Storable(key, val)
    {
      UsedReadable(State(), log, view, row, ref);
      var pos := rows[row][ref].pos - HEADER;
      var keyLen := GetU32(data, pos + 1);
      key := data[pos + 5..pos + 5 + keyLen];
      var valLen := GetU32(data, pos + 5 + keyLen);
      val := data[pos + 5 + keyLen + 4..pos + 5 + keyLen + 4 + valLen];
    }
  }
}
