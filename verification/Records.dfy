/**
  The growable data part of a tab file: key/value records appended one after the other.
  A record is a type byte, a 32-bit key length, the key, a 32-bit value length and the value.
  Deleting a record overwrites its first five bytes and leaves the rest.
 */
module Records {
  import opened Bytes

  const U32: nat := 0x1_0000_0000
  const STR32_TAG: byte := 0x3e     // key type 6 in bits 0-2, value type 7 in bits 3-6
  const DELETED_TAG: byte := 0xff

  // ----- 32-bit little-endian numbers -----

  function PutU32(n: nat): (s: seq<byte>)
    requires n < U32
    ensures |s| == 4
  {
    [n % 256, n / 256 % 256, n / 65536 % 256, n / 16777216]
  }

  function GetU32(s: seq<byte>, at: nat): (n: nat)
    requires at + 4 <= |s|
    ensures n < U32
  {
    (s[at] as int) + 256 * (s[at + 1] as int) + 65536 * (s[at + 2] as int) + 16777216 * (s[at + 3] as int)
  }

  lemma {:induction false} Digits(n: nat)
    ensures n == n % 256 + 256 * (n / 256 % 256) + 65536 * (n / 65536 % 256) + 16777216 * (n / 16777216)
  {
    assert n / 65536 == n / 256 / 256 && n / 16777216 == n / 65536 / 256;
  }

  lemma {:induction false} U32RoundTrip(s: seq<byte>, at: nat, n: nat)
    requires n < U32 && at + 4 <= |s| && s[at..at + 4] == PutU32(n)
    ensures GetU32(s, at) == n
  {
    var p := s[at..at + 4];
    assert s[at] == p[0] && s[at + 1] == p[1] && s[at + 2] == p[2] && s[at + 3] == p[3];
    Digits(n);
  }

  // ----- one record -----

  /** A record, the slot (row, ref) that owns it while it is live, and whether it is live. */
  datatype Rec = Rec(row: nat, ref: nat, live: bool, key: seq<byte>, val: seq<byte>)

  predicate Storable(key: seq<byte>, val: seq<byte>) {
    9 + |key| + |val| < U32
  }

  function Size(r: Rec): nat {
    9 + |r.key| + |r.val|
  }

  /** What a deletion leaves of the first five bytes. */
  function DeadPrefix(keyLen: nat, valLen: nat): (s: seq<byte>)
    requires keyLen + valLen < U32
    ensures |s| == 5
  {
    [DELETED_TAG] + PutU32(keyLen + valLen)
  }

  /** The first five bytes: the only ones a deletion changes. */
  function Prefix(r: Rec): (s: seq<byte>)
    requires Storable(r.key, r.val)
    ensures |s| == 5
  {
    if r.live then [STR32_TAG] + PutU32(|r.key|) else DeadPrefix(|r.key|, |r.val|)
  }

  function Enc(r: Rec): (s: seq<byte>)
    requires Storable(r.key, r.val)
    ensures |s| == Size(r)
  {
    Prefix(r) + r.key + PutU32(|r.val|) + r.val
  }

  // ----- reading a record back -----

  /** The bounds checks that shf_find_key_internal asserts before it reads. */
  predicate Readable(d: seq<byte>, at: nat) {
    && at + 5 <= |d|
    && at + 5 + GetU32(d, at + 1) + 4 <= |d|
    && at + 9 + GetU32(d, at + 1) + GetU32(d, at + 5 + GetU32(d, at + 1)) <= |d|
  }

  function KeyAt(d: seq<byte>, at: nat): seq<byte>
    requires Readable(d, at)
  {
    d[at + 5..at + 5 + GetU32(d, at + 1)]
  }

  function ValAt(d: seq<byte>, at: nat): seq<byte>
    requires Readable(d, at)
  {
    var v := at + 5 + GetU32(d, at + 1);
    d[v + 4..v + 4 + GetU32(d, v)]
  }

  lemma {:induction false} SubSlice(d: seq<byte>, at: nat, e: seq<byte>, lo: nat, hi: nat)
    requires lo <= hi <= |e| && at + |e| <= |d| && d[at..at + |e|] == e
    ensures d[at + lo..at + hi] == e[lo..hi]
  {
    forall i | lo <= i < hi ensures d[at + i] == e[i] {
      assert d[at..at + |e|][i] == e[i];
    }
    assert d[at + lo..at + hi] == e[lo..hi];
  }

  lemma {:induction false} EncParts(r: Rec)
    requires r.live && Storable(r.key, r.val)
    ensures var e, k := Enc(r), |r.key|;
            && e[1..5] == PutU32(k) && e[5..5 + k] == r.key
            && e[5 + k..9 + k] == PutU32(|r.val|) && e[9 + k..|e|] == r.val
  {
    var e, k := Enc(r), |r.key|;
    var tail := PutU32(|r.val|) + r.val;
    assert e == [STR32_TAG] + PutU32(k) + r.key + tail;
    assert e[5 + k..] == tail;
  }

  /** A record as it lies in the file: a tag, the key length, the key, the value length and the value; and its first
      five bytes after a deletion. */
  lemma {:induction false} EncExample()
    ensures var r := Rec(0, 0, true, [0x61, 0x62], [0x63]);
            && Storable(r.key, r.val)
            && Enc(r) == [0x3e, 2, 0, 0, 0, 0x61, 0x62, 1, 0, 0, 0, 0x63]
            && Enc(r.(live := false))[..5] == [0xff, 3, 0, 0, 0]
  {
  }

  lemma {:induction false} ReadParts(d: seq<byte>, at: nat, key: seq<byte>, val: seq<byte>)
    requires Storable(key, val) && at + 9 + |key| + |val| <= |d|
    requires d[at + 1..at + 5] == PutU32(|key|) && d[at + 5..at + 5 + |key|] == key
    requires d[at + 5 + |key|..at + 9 + |key|] == PutU32(|val|)
    requires d[at + 9 + |key|..at + 9 + |key| + |val|] == val
    ensures Readable(d, at) && KeyAt(d, at) == key && ValAt(d, at) == val
  {
    U32RoundTrip(d, at + 1, |key|);
    U32RoundTrip(d, at + 5 + |key|, |val|);
  }

  lemma {:induction false} ReadWhole(d: seq<byte>, at: nat, e: seq<byte>, key: seq<byte>, val: seq<byte>)
    requires Storable(key, val) && |e| == 9 + |key| + |val| && at + |e| <= |d| && d[at..at + |e|] == e
    requires e[1..5] == PutU32(|key|) && e[5..5 + |key|] == key
    requires e[5 + |key|..9 + |key|] == PutU32(|val|) && e[9 + |key|..|e|] == val
    ensures Readable(d, at) && KeyAt(d, at) == key && ValAt(d, at) == val
  {
    var k := |key|;
    SubSlice(d, at, e, 1, 5);
    SubSlice(d, at, e, 5, 5 + k);
    SubSlice(d, at, e, 5 + k, 9 + k);
    SubSlice(d, at, e, 9 + k, |e|);
    ReadParts(d, at, key, val);
  }

  /** A live record is read back as it was written. */
  lemma {:induction false} ReadBack(d: seq<byte>, at: nat, r: Rec)
    requires r.live && Storable(r.key, r.val)
    requires at + Size(r) <= |d| && d[at..at + Size(r)] == Enc(r)
    ensures Readable(d, at) && KeyAt(d, at) == r.key && ValAt(d, at) == r.val
  {
    EncParts(r);
    ReadWhole(d, at, Enc(r), r.key, r.val);
  }

  // ----- overwriting bytes -----

  /** Bytes written over others at a position. */
  function Splice(d: seq<byte>, at: nat, b: seq<byte>): (s: seq<byte>)
    requires at + |b| <= |d|
    ensures |s| == |d|
  {
    d[..at] + b + d[at + |b|..]
  }

  lemma {:induction false} SpliceFrame(d: seq<byte>, at: nat, b: seq<byte>, lo: nat, hi: nat)
    requires at + |b| <= |d| && lo <= hi <= |d| && (hi <= at || at + |b| <= lo)
    ensures Splice(d, at, b)[lo..hi] == d[lo..hi]
  {
    assert forall i :: lo <= i < hi ==> Splice(d, at, b)[i] == d[i];
  }

  lemma {:induction false} SpliceInside(d: seq<byte>, at: nat, b: seq<byte>, n: nat)
    requires |b| <= n && at + n <= |d|
    ensures Splice(d, at, b)[at..at + n] == Splice(d[at..at + n], 0, b)
  {
    var s, t := Splice(d, at, b), Splice(d[at..at + n], 0, b);
    forall i | 0 <= i < n ensures s[at + i] == t[i] {}
    assert s[at..at + n] == t;
  }

  // ----- the log of records -----

  /** Where record i starts: each record starts where the one before it ends. */
  function Off(log: seq<Rec>, i: nat): nat
    requires i <= |log|
  {
    if i == 0 then 0 else Off(log, i - 1) + Size(log[i - 1])
  }

  function LiveBytes(log: seq<Rec>): nat {
    if log == [] then 0
    else LiveBytes(log[..|log| - 1]) + if log[|log| - 1].live then Size(log[|log| - 1]) else 0
  }

  function DeadBytes(log: seq<Rec>): nat {
    if log == [] then 0
    else DeadBytes(log[..|log| - 1]) + if log[|log| - 1].live then 0 else Size(log[|log| - 1])
  }

  lemma {:induction false} OffSameSizes(a: seq<Rec>, b: seq<Rec>, i: nat)
    requires i <= |a| && i <= |b|
    requires forall j :: 0 <= j < i ==> Size(a[j]) == Size(b[j])
    ensures Off(a, i) == Off(b, i)
    decreases i
  {
    if i > 0 { OffSameSizes(a, b, i - 1); }
  }

  /** No record overlaps a later one. */
  lemma {:induction false} OffMonotone(log: seq<Rec>, i: nat, j: nat)
    requires i < j <= |log|
    ensures Off(log, i) + Size(log[i]) <= Off(log, j)
    decreases j
  {
    if i < j - 1 { OffMonotone(log, i, j - 1); }
  }

  /** The live and the deleted records tile the data area exactly. */
  lemma {:induction false} BytesTotal(log: seq<Rec>, i: nat)
    requires i <= |log|
    ensures Off(log, i) == LiveBytes(log[..i]) + DeadBytes(log[..i])
  {
    if i > 0 {
      BytesTotal(log, i - 1);
      assert log[..i][..i - 1] == log[..i - 1];
    }
  }

  lemma {:induction false} BytesAppend(log: seq<Rec>, r: Rec)
    ensures LiveBytes(log + [r]) == LiveBytes(log) + if r.live then Size(r) else 0
    ensures DeadBytes(log + [r]) == DeadBytes(log) + if r.live then 0 else Size(r)
  {
    assert (log + [r])[..|log|] == log;
  }

  function Dead(r: Rec): Rec { r.(live := false) }

  lemma {:induction false} BytesDelete(log: seq<Rec>, i: nat)
    requires i < |log| && log[i].live
    ensures LiveBytes(log[i := Dead(log[i])]) == LiveBytes(log) - Size(log[i])
    ensures DeadBytes(log[i := Dead(log[i])]) == DeadBytes(log) + Size(log[i])
    decreases |log|
  {
    var n := |log| - 1;
    var log' := log[i := Dead(log[i])];
    if i == n {
      assert log'[..n] == log[..n];
    } else {
      BytesDelete(log[..n], i);
      assert log'[..n] == log[..n][i := Dead(log[i])];
    }
  }

  lemma {:induction false} LiveAtLeast(log: seq<Rec>, i: nat)
    requires i < |log| && log[i].live
    ensures Size(log[i]) <= LiveBytes(log)
    decreases |log|
  {
    if i < |log| - 1 { LiveAtLeast(log[..|log| - 1], i); }
  }

  lemma {:induction false} EncDead(r: Rec)
    requires r.live && Storable(r.key, r.val)
    ensures Enc(Dead(r)) == Splice(Enc(r), 0, DeadPrefix(|r.key|, |r.val|))
  {
    var rest := r.key + PutU32(|r.val|) + r.val;
    assert Enc(r) == Prefix(r) + rest;
    assert Enc(Dead(r)) == DeadPrefix(|r.key|, |r.val|) + rest;
  }

  // ----- a data area that stores a log -----

  /** The bytes of record i stand at its offset. */
  ghost predicate Stores(d: seq<byte>, log: seq<Rec>, i: nat)
    requires i < |log|
  {
    && Storable(log[i].key, log[i].val)
    && Off(log, i) + Size(log[i]) <= |d|
    && d[Off(log, i)..Off(log, i) + Size(log[i])] == Enc(log[i])
  }

  /** The data area is the log's records, end to end, followed by zeros. */
  ghost predicate DataMatches(d: seq<byte>, log: seq<Rec>) {
    && Off(log, |log|) <= |d|
    && (forall i :: 0 <= i < |log| ==> Stores(d, log, i))
    && (forall k :: Off(log, |log|) <= k < |d| ==> d[k] == 0)
  }

  lemma {:induction false} ReadLog(d: seq<byte>, log: seq<Rec>, i: nat)
    requires DataMatches(d, log) && i < |log| && log[i].live
    ensures Readable(d, Off(log, i))
    ensures KeyAt(d, Off(log, i)) == log[i].key && ValAt(d, Off(log, i)) == log[i].val
  {
    assert Stores(d, log, i);
    ReadBack(d, Off(log, i), log[i]);
  }

  lemma {:induction false} AppendedStores(d: seq<byte>, log: seq<Rec>, rec: Rec, i: nat)
    requires Storable(rec.key, rec.val) && Off(log, |log|) + Size(rec) <= |d| && i <= |log|
    requires i < |log| ==> Stores(d, log, i)
    ensures Stores(Splice(d, Off(log, |log|), Enc(rec)), log + [rec], i)
  {
    var o := Off(log, |log|);
    OffSameSizes(log + [rec], log, i);
    if i < |log| {
      OffMonotone(log, i, |log|);
      SpliceFrame(d, o, Enc(rec), Off(log, i), Off(log, i) + Size(log[i]));
    }
  }

  lemma {:induction false} AppendedData(d: seq<byte>, log: seq<Rec>, rec: Rec)
    requires DataMatches(d, log) && Storable(rec.key, rec.val) && Off(log, |log|) + Size(rec) <= |d|
    ensures DataMatches(Splice(d, Off(log, |log|), Enc(rec)), log + [rec])
  {
    var log', d' := log + [rec], Splice(d, Off(log, |log|), Enc(rec));
    OffSameSizes(log', log, |log|);
    forall i | 0 <= i < |log'| ensures Stores(d', log', i) {
      AppendedStores(d, log, rec, i);
    }
  }

  lemma {:induction false} GrownData(d: seq<byte>, log: seq<Rec>, zeros: seq<byte>)
    requires DataMatches(d, log) && forall k :: 0 <= k < |zeros| ==> zeros[k] == 0
    ensures DataMatches(d + zeros, log)
  {
    forall i | 0 <= i < |log| ensures Stores(d + zeros, log, i) {
      assert Stores(d, log, i);
      assert (d + zeros)[Off(log, i)..Off(log, i) + Size(log[i])] == d[Off(log, i)..Off(log, i) + Size(log[i])];
    }
  }

  lemma {:induction false} DeletedStoresOther(d: seq<byte>, log: seq<Rec>, i: nat, j: nat, p: seq<byte>)
    requires i < |log| && j < |log| && j != i && Stores(d, log, j)
    requires |p| <= Size(log[i]) && Off(log, i) + Size(log[i]) <= |d|
    ensures Stores(Splice(d, Off(log, i), p), log[i := Dead(log[i])], j)
  {
    OffSameSizes(log[i := Dead(log[i])], log, j);
    if i < j { OffMonotone(log, i, j); } else { OffMonotone(log, j, i); }
    SpliceFrame(d, Off(log, i), p, Off(log, j), Off(log, j) + Size(log[j]));
  }

  lemma {:induction false} DeletedStoresSelf(d: seq<byte>, log: seq<Rec>, i: nat)
    requires i < |log| && log[i].live && Stores(d, log, i)
    ensures Stores(Splice(d, Off(log, i), DeadPrefix(|log[i].key|, |log[i].val|)), log[i := Dead(log[i])], i)
  {
    OffSameSizes(log[i := Dead(log[i])], log, i);
    SpliceInside(d, Off(log, i), DeadPrefix(|log[i].key|, |log[i].val|), Size(log[i]));
    EncDead(log[i]);
  }

  /** Deleting record i rewrites its prefix in place and moves nothing else. */
  lemma {:induction false} DeletedData(d: seq<byte>, log: seq<Rec>, i: nat)
    requires DataMatches(d, log) && i < |log| && log[i].live
    ensures Off(log, i) + Size(log[i]) <= |d| && Storable(log[i].key, log[i].val)
    ensures DataMatches(Splice(d, Off(log, i), DeadPrefix(|log[i].key|, |log[i].val|)), log[i := Dead(log[i])])
  {
    assert Stores(d, log, i);
    var log', d' := log[i := Dead(log[i])], Splice(d, Off(log, i), DeadPrefix(|log[i].key|, |log[i].val|));
    OffSameSizes(log', log, |log|);
    OffMonotone(log, i, |log|);
    forall j | 0 <= j < |log'| ensures Stores(d', log', j) {
      assert Stores(d, log, j);
      if j == i {
        DeletedStoresSelf(d, log, i);
      } else {
        DeletedStoresOther(d, log, i, j, DeadPrefix(|log[i].key|, |log[i].val|));
      }
    }
  }
}
