/**
  Whole runs of put, get and delete on one window, and what holds over every run:
  a UID keeps naming the pair it was given, however often tabs part and shrink, until it is deleted.
 */
module Runs {
  import opened Bytes
  import opened Records
  import opened Tabs
  import opened Contents
  import opened Windows
  import TabFiles

  datatype Op =
    | PutOp(key: seq<byte>, val: Option<seq<byte>>, valLen: nat)
    | FindOp(uid: nat, key: seq<byte>, what: FindWhat)

  datatype Out = Uid32(uid: nat) | Found(u: Uid, val: seq<byte>) | Missing

  /** What the source asks of a caller: hash and UID lead to this window, lengths fit their fields. */
  ghost predicate OpOk(op: Op, win: nat, hash: seq<byte> -> Address) {
    match op
    case PutOp(key, val, valLen) =>
      && hash(key).win == win && (val.Some? ==> |val.value| == valLen)
      && Storable(key, TabFiles.Stored(val, valLen))
    case FindOp(uid, key, what) =>
      uid < U32 && if uid == UID_NONE then hash(key).win == win else UnpackWin(uid) == win
  }

  /** One operation on the map of a window. */
  ghost predicate Step(m: map<Uid, Pair>, op: Op, out: Out, m': map<Uid, Pair>, win: nat) {
    match op
    case PutOp(key, val, valLen) =>
      && (val.Some? ==> |val.value| == valLen)
      && out.Uid32? && out.uid == PackUid(win, UnpackUid(out.uid)) && UnpackUid(out.uid) !in m
      && m' == m[UnpackUid(out.uid) := Pair(key, TabFiles.Stored(val, valLen))]
    case FindOp(uid, key, what) =>
      if out.Found? then
        && out.u in m && out.val == m[out.u].val
        && (if uid == UID_NONE then LowestKey(m, key, out.u) else out.u == UnpackUid(uid))
        && m' == if what.Delete? then m - {out.u} else m
      else
        && out.Missing? && m' == m
        && if uid == UID_NONE then !HasKey(m, key) else UnpackUid(uid) !in m
  }

  /** The maps a run passes through. */
  ghost predicate Trace(maps: seq<map<Uid, Pair>>, ops: seq<Op>, outs: seq<Out>, win: nat) {
    && |maps| == |outs| + 1 && |outs| <= |ops|
    && forall i :: 0 <= i < |outs| ==> Step(maps[i], ops[i], outs[i], maps[i + 1], win)
  }

  lemma {:induction false} TraceMore(maps: seq<map<Uid, Pair>>, ops: seq<Op>, outs: seq<Out>, win: nat,
                                     out: Out, m: map<Uid, Pair>)
    requires Trace(maps, ops, outs, win) && |outs| < |ops| && Step(maps[|outs|], ops[|outs|], out, m, win)
    ensures Trace(maps + [m], ops, outs + [out], win)
  {
    hide Step;
    var maps', outs' := maps + [m], outs + [out];
    forall i | 0 <= i < |outs'| ensures Step(maps'[i], ops[i], outs'[i], maps'[i + 1], win) {
      if i < |outs| { assert Step(maps[i], ops[i], outs[i], maps[i + 1], win); }
    }
  }

  /** One operation; there is no result if a put overflows. */
  method Do(w: Window, op: Op) returns (out: Option<Out>)
    requires w.Valid() && OpOk(op, w.win, w.hash)
    modifies w, w.Repr
    ensures fresh(w.Repr - old(w.Repr))
    ensures out.Some? ==> w.Valid() && Step(old(w.contents), op, out.value, w.contents, w.win)
    ensures out.None? ==> op.PutOp? && w.contents == old(w.contents)
                          && var a := w.hash(op.key); RowFull(w.contents, a.tab2, a.row)
  {
    hide Window.Valid, RowFull, LowestKey, HasKey, UnpackUid, PackUid;
    match op {
      case PutOp(key, val, valLen) =>
        var res := w.Put(key, val, valLen);
        out := if res.TabOverflow? then None else Some(Uid32(res.uid));
      case FindOp(uid, key, what) =>
        var found, u, val := w.Find(uid, key, what);
        out := Some(if found then Found(u, val) else Missing);
    }
  }

  /** Runs operations until the end or a tab overflow; every step acts on the map as specified. */
  method Run(w: Window, ops: seq<Op>) returns (outs: seq<Out>, ghost maps: seq<map<Uid, Pair>>)
    requires w.Valid() && forall i :: 0 <= i < |ops| ==> OpOk(ops[i], w.win, w.hash)
    modifies w, w.Repr
    ensures Trace(maps, ops, outs, w.win) && maps[0] == old(w.contents) && maps[|outs|] == w.contents
    ensures |outs| == |ops| ==> w.Valid()
    ensures |outs| < |ops| ==>
              ops[|outs|].PutOp? && var a := w.hash(ops[|outs|].key); RowFull(w.contents, a.tab2, a.row)
  {
    hide Window.Valid, Step, RowFull;
    outs, maps := [], [w.contents];
    while |outs| < |ops|
      invariant w.Valid() && fresh(w.Repr - old(w.Repr))
      invariant Trace(maps, ops, outs, w.win) && maps[0] == old(w.contents) && maps[|outs|] == w.contents
      decreases |ops| - |outs|
    {
      var out := Do(w, ops[|outs|]);
      if out.None? { return; }
      TraceMore(maps, ops, outs, w.win, out.value, w.contents);
      maps := maps + [w.contents];
      outs := outs + [out.value];
    }
  }

  ghost predicate Deletes(op: Op, out: Out, u: Uid) {
    op.FindOp? && op.what.Delete? && out.Found? && out.u == u
  }

  /** What a put stored under a UID is what every later get by that UID returns, until it is deleted. */
  lemma {:induction false} UidSurvives(maps: seq<map<Uid, Pair>>, ops: seq<Op>, outs: seq<Out>, win: nat,
                                       i: nat, k: nat)
    requires Trace(maps, ops, outs, win) && i < k <= |outs| && ops[i].PutOp?
    requires Step(maps[i], ops[i], outs[i], maps[i + 1], win)
    requires forall j :: i < j < k ==> !Deletes(ops[j], outs[j], UnpackUid(outs[i].uid))
    ensures var u := UnpackUid(outs[i].uid);
            u in maps[k] && maps[k][u] == Pair(ops[i].key, TabFiles.Stored(ops[i].val, ops[i].valLen))
    ensures k < |outs| && ops[k].FindOp? && ops[k].uid == outs[i].uid && ops[k].uid != UID_NONE ==>
              outs[k] == Found(UnpackUid(outs[i].uid), TabFiles.Stored(ops[i].val, ops[i].valLen))
    decreases k
  {
    if k > i + 1 {
      UidSurvives(maps, ops, outs, win, i, k - 1);
      assert Step(maps[k - 1], ops[k - 1], outs[k - 1], maps[k], win);
    }
    if k < |outs| { assert Step(maps[k], ops[k], outs[k], maps[k + 1], win); }
  }

  /** A live UID is never handed out again. */
  lemma {:induction false} UidsFresh(maps: seq<map<Uid, Pair>>, ops: seq<Op>, outs: seq<Out>, win: nat,
                                     i: nat, k: nat)
    requires Trace(maps, ops, outs, win) && i < k < |outs| && ops[i].PutOp? && ops[k].PutOp?
    requires Step(maps[i], ops[i], outs[i], maps[i + 1], win) && Step(maps[k], ops[k], outs[k], maps[k + 1], win)
    requires forall j :: i < j < k ==> !Deletes(ops[j], outs[j], UnpackUid(outs[i].uid))
    ensures outs[k].uid != outs[i].uid
  {
    UidSurvives(maps, ops, outs, win, i, k);
  }
}
