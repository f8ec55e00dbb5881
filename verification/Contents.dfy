/**
  What one window of a SharedHashFile contains: a finite map from UIDs to key/value pairs,
  read off the redirect array and the grids of its tabs. Put, delete, shrink and part are
  shown here to act on that map as they should.
 */
module Contents {
  import opened Bytes
  import opened Arithmetic
  import opened Tabs
  import opened TabFiles
  import opened Compaction
  import opened Redirect

  const WINS: nat := 256
  const RNDS: nat := 0x20_0000

  /** Where a key's hash sends it: window, logical table, row and fingerprint. */
  datatype RawAddress = Addr(win: nat, tab2: nat, row: nat, rnd: nat)
  type Address = a: RawAddress | a.win < WINS && a.tab2 < TABS && a.row < ROWS && a.rnd < RNDS
    witness Addr(0, 0, 0, 0)

  /** The part of a 32-bit UID that names a slot within its window. */
  datatype Uid = Uid(tab2: nat, row: nat, ref: nat)

  datatype Pair = Pair(key: seq<byte>, val: seq<byte>)

  predicate UidOk(u: Uid) {
    u.tab2 < TABS && u.row < ROWS && u.ref < REFS
  }

  ghost function AllUids(): (s: set<Uid>)
    ensures forall u :: u in s <==> UidOk(u)
  {
    set t, r, c | 0 <= t < TABS && 0 <= r < ROWS && 0 <= c < REFS :: Uid(t, r, c)
  }

  // ----- the invariant across tabs -----

  /** An entry sits in the tab its tab2 routes to, at the row and with the fingerprint its key hashes to. */
  ghost predicate AtHome(e: Entry, row: nat, tab: nat, red: seq<nat>, win: nat, hash: seq<byte> -> Address) {
    e.tab < |red| && red[e.tab] == tab && hash(e.key) == Addr(win, e.tab, row, e.rnd)
  }

  ghost predicate Routed(g: Grid, tab: nat, red: seq<nat>, win: nat, hash: seq<byte> -> Address) {
    && GridShape(g)
    && forall r, c :: 0 <= r < ROWS && 0 <= c < REFS && g[r][c].Some? ==>
         AtHome(g[r][c].value, r, tab, red, win, hash)
  }

  ghost predicate AllRouted(gs: seq<Grid>, red: seq<nat>, win: nat, hash: seq<byte> -> Address) {
    forall t :: 0 <= t < |gs| ==> Routed(gs[t], t, red, win, hash)
  }

  ghost predicate Shapes(red: seq<nat>, gs: seq<Grid>) {
    && |red| == TABS && (forall i :: 0 <= i < TABS ==> red[i] < |gs|)
    && forall t :: 0 <= t < |gs| ==> GridShape(gs[t])
  }

  /** The redirect array is a trie over the tabs and every entry is at home. */
  ghost predicate WindowInv(red: seq<nat>, gs: seq<Grid>, cells: seq<Cell>, win: nat, hash: seq<byte> -> Address) {
    Trie(red, cells) && |cells| == |gs| && Shapes(red, gs) && AllRouted(gs, red, win, hash)
  }

  // ----- the map -----

  /** What a lookup by UID finds. */
  ghost function Lookup(red: seq<nat>, gs: seq<Grid>, u: Uid): Option<Pair>
    requires Shapes(red, gs) && UidOk(u)
  {
    var e := gs[red[u.tab2]][u.row][u.ref];
    if e.Some? && e.value.tab == u.tab2 then Some(Pair(e.value.key, e.value.val)) else None
  }

  ghost function MapOf(red: seq<nat>, gs: seq<Grid>): (m: map<Uid, Pair>)
    requires Shapes(red, gs)
    ensures forall u :: u in m <==> UidOk(u) && Lookup(red, gs, u).Some?
    ensures forall u :: u in m ==> m[u] == Lookup(red, gs, u).value
  {
    map u | u in AllUids() && Lookup(red, gs, u).Some? :: Lookup(red, gs, u).value
  }

  lemma {:induction false} SameMap(red: seq<nat>, gs: seq<Grid>, red': seq<nat>, gs': seq<Grid>)
    requires Shapes(red, gs) && Shapes(red', gs')
    requires forall u :: UidOk(u) ==> Lookup(red', gs', u) == Lookup(red, gs, u)
    ensures MapOf(red', gs') == MapOf(red, gs)
  {
  }

  /** A window state and the map it represents. */
  ghost predicate Holds(red: seq<nat>, gs: seq<Grid>, cells: seq<Cell>, win: nat, hash: seq<byte> -> Address,
                        m: map<Uid, Pair>) {
    WindowInv(red, gs, cells, win, hash) && m == MapOf(red, gs)
  }

  /** The slot of a live UID. */
  lemma {:induction false} LiveSlot(red: seq<nat>, gs: seq<Grid>, cells: seq<Cell>, win: nat,
                                    hash: seq<byte> -> Address, m: map<Uid, Pair>, u: Uid)
    requires Holds(red, gs, cells, win, hash, m) && UidOk(u)
    ensures red[u.tab2] < |gs| && GridShape(gs[red[u.tab2]])
    ensures var e := gs[red[u.tab2]][u.row][u.ref];
            && (u in m <==> e.Some? && e.value.tab == u.tab2)
            && (u in m ==> m[u] == Pair(e.value.key, e.value.val))
  {
  }

  /** Some tab2 has a live UID at this row and ref. */
  ghost predicate SlotTaken(m: map<Uid, Pair>, row: nat, ref: nat) { exists t :: Uid(t, row, ref) in m }

  /** A slot in use is that of a live UID. */
  lemma {:induction false} UsedSlot(red: seq<nat>, gs: seq<Grid>, cells: seq<Cell>, win: nat,
                                    hash: seq<byte> -> Address, m: map<Uid, Pair>, t: nat, row: nat, ref: nat)
    requires Holds(red, gs, cells, win, hash, m) && t < |gs| && row < ROWS && ref < REFS
    ensures GridShape(gs[t]) && (gs[t][row][ref].Some? ==> SlotTaken(m, row, ref))
  {
    assert Routed(gs[t], t, red, win, hash);
    if gs[t][row][ref].Some? { assert Uid(gs[t][row][ref].value.tab, row, ref) in m; }
  }

  /** What parting a tab needs to know of it. */
  lemma {:induction false} TabsInRange(red: seq<nat>, gs: seq<Grid>, cells: seq<Cell>, win: nat,
                                       hash: seq<byte> -> Address, m: map<Uid, Pair>, tab: nat)
    requires Holds(red, gs, cells, win, hash, m) && tab < |gs|
    ensures GridShape(gs[tab]) && |cells| == |gs|
    ensures forall r, c :: 0 <= r < ROWS && 0 <= c < REFS && gs[tab][r][c].Some? ==> gs[tab][r][c].value.tab < TABS
  {
    assert Routed(gs[tab], tab, red, win, hash);
  }

  // ----- putting and deleting -----

  lemma {:induction false} PutMap(red: seq<nat>, gs: seq<Grid>, u: Uid, e: Entry)
    requires Shapes(red, gs) && UidOk(u) && e.tab == u.tab2
    requires gs[red[u.tab2]][u.row][u.ref].None?
    ensures var t := red[u.tab2];
            var gs' := gs[t := SetView(gs[t], u.row, u.ref, Some(e))];
            && Shapes(red, gs') && u !in MapOf(red, gs)
            && MapOf(red, gs') == MapOf(red, gs)[u := Pair(e.key, e.val)]
  {
    var t := red[u.tab2];
    var gs' := gs[t := SetView(gs[t], u.row, u.ref, Some(e))];
    var m, m' := MapOf(red, gs), MapOf(red, gs');
    forall w: Uid | UidOk(w) ensures Lookup(red, gs', w) == if w == u then Some(Pair(e.key, e.val)) else Lookup(red, gs, w) {
    }
    assert m'.Keys == m.Keys + {u};
  }

  lemma {:induction false} DeleteMap(red: seq<nat>, gs: seq<Grid>, u: Uid)
    requires Shapes(red, gs) && UidOk(u) && Lookup(red, gs, u).Some?
    ensures var t := red[u.tab2];
            var gs' := gs[t := SetView(gs[t], u.row, u.ref, None)];
            Shapes(red, gs') && MapOf(red, gs') == MapOf(red, gs) - {u}
  {
    var t := red[u.tab2];
    var gs' := gs[t := SetView(gs[t], u.row, u.ref, None)];
    var m, m' := MapOf(red, gs), MapOf(red, gs');
    forall w: Uid | UidOk(w) ensures Lookup(red, gs', w) == if w == u then None else Lookup(red, gs, w) {
    }
    assert m'.Keys == m.Keys - {u};
  }

  lemma {:induction false} SetRouted(gs: seq<Grid>, red: seq<nat>, win: nat, hash: seq<byte> -> Address,
                                     t: nat, r: nat, c: nat, e: Option<Entry>)
    requires AllRouted(gs, red, win, hash) && t < |gs| && r < ROWS && c < REFS
    requires e.Some? ==> AtHome(e.value, r, t, red, win, hash)
    ensures Routed(gs[t], t, red, win, hash)
    ensures AllRouted(gs[t := SetView(gs[t], r, c, e)], red, win, hash)
  {
    assert Routed(gs[t], t, red, win, hash);
  }

  lemma {:induction false} PutWindow(red: seq<nat>, gs: seq<Grid>, cells: seq<Cell>, win: nat,
                                     hash: seq<byte> -> Address, m: map<Uid, Pair>, u: Uid, e: Entry)
    requires Holds(red, gs, cells, win, hash, m) && UidOk(u) && e.tab == u.tab2
    requires AtHome(e, u.row, red[u.tab2], red, win, hash)
    requires gs[red[u.tab2]][u.row][u.ref].None?
    ensures u !in m
    ensures var t := red[u.tab2];
            Holds(red, gs[t := SetView(gs[t], u.row, u.ref, Some(e))], cells, win, hash, m[u := Pair(e.key, e.val)])
  {
    PutMap(red, gs, u, e);
    SetRouted(gs, red, win, hash, red[u.tab2], u.row, u.ref, Some(e));
  }

  lemma {:induction false} DeleteWindow(red: seq<nat>, gs: seq<Grid>, cells: seq<Cell>, win: nat,
                                        hash: seq<byte> -> Address, m: map<Uid, Pair>, u: Uid)
    requires Holds(red, gs, cells, win, hash, m) && u in m
    ensures UidOk(u) && red[u.tab2] < |gs|
    ensures var t := red[u.tab2];
            Holds(red, gs[t := SetView(gs[t], u.row, u.ref, None)], cells, win, hash, m - {u})
  {
    DeleteMap(red, gs, u);
    SetRouted(gs, red, win, hash, red[u.tab2], u.row, u.ref, None);
  }

  // ----- parting -----

  /** Parting moves entries between tabs and changes no lookup. */
  lemma {:induction false} PartLookup(red: seq<nat>, gs: seq<Grid>, win: nat, hash: seq<byte> -> Address,
                                      tab: nat, left: Grid, moved: Grid, u: Uid)
    requires Shapes(red, gs) && AllRouted(gs, red, win, hash) && tab < |gs| && UidOk(u)
    requires PartedGrids(gs[tab], left, moved, Parted(red, tab, |gs|), |gs|)
    ensures var red', gs' := Parted(red, tab, |gs|), gs[tab := left] + [moved];
            Shapes(red', gs') && Lookup(red', gs', u) == Lookup(red, gs, u)
  {
    var red', gs' := Parted(red, tab, |gs|), gs[tab := left] + [moved];
    assert red'[u.tab2] == red[u.tab2] || (red[u.tab2] == tab && red'[u.tab2] == |gs|);
    assert gs'[|gs|] == moved && gs'[tab] == left;
    var t := red[u.tab2];
    assert Routed(gs[t], t, red, win, hash);
    assert t != tab ==> gs'[t] == gs[t];
    var e := gs[t][u.row][u.ref];
    assert t == tab ==> left[u.row][u.ref] == Left(gs[tab], red', |gs|, u.row, u.ref);
    assert t == tab ==> moved[u.row][u.ref] == Moved(gs[tab], red', |gs|, u.row, u.ref);
  }

  lemma {:induction false} PartRouted(red: seq<nat>, gs: seq<Grid>, win: nat, hash: seq<byte> -> Address,
                                      tab: nat, left: Grid, moved: Grid)
    requires Shapes(red, gs) && AllRouted(gs, red, win, hash) && tab < |gs|
    requires PartedGrids(gs[tab], left, moved, Parted(red, tab, |gs|), |gs|)
    ensures AllRouted(gs[tab := left] + [moved], Parted(red, tab, |gs|), win, hash)
  {
    var red', gs': seq<Grid> := Parted(red, tab, |gs|), gs[tab := left] + [moved];
    assert Routed(gs[tab], tab, red, win, hash);
    forall t | 0 <= t < |gs'| ensures Routed(gs'[t], t, red', win, hash) {
      if t < |gs| && t != tab {
        assert Routed(gs[t], t, red, win, hash);
      } else {
        forall r, c | 0 <= r < ROWS && 0 <= c < REFS && gs'[t][r][c].Some?
          ensures AtHome(gs'[t][r][c].value, r, t, red', win, hash)
        {
          assert gs'[t][r][c] == if t == tab then left[r][c] else moved[r][c];
          assert AtHome(gs[tab][r][c].value, r, tab, red, win, hash);
        }
      }
    }
  }

  /** Parting keeps the invariant and the map. */
  lemma {:induction false} PartMap(red: seq<nat>, gs: seq<Grid>, cells: seq<Cell>, win: nat,
                                   hash: seq<byte> -> Address, m: map<Uid, Pair>, tab: nat, left: Grid, moved: Grid)
    requires Holds(red, gs, cells, win, hash, m) && tab < |gs|
    requires PartedGrids(gs[tab], left, moved, Parted(red, tab, |gs|), |gs|)
    ensures Shapes(Parted(red, tab, |gs|), gs[tab := left] + [moved])
    ensures Holds(Parted(red, tab, |gs|), gs[tab := left] + [moved], SplitCells(cells, tab), win, hash, m)
  {
    var red', gs' := Parted(red, tab, |gs|), gs[tab := left] + [moved];
    PartedTrie(red, cells, tab);
    PartRouted(red, gs, win, hash, tab, left, moved);
    PartLookup(red, gs, win, hash, tab, left, moved, Uid(0, 0, 0));
    forall u | UidOk(u) ensures Lookup(red', gs', u) == Lookup(red, gs, u) {
      PartLookup(red, gs, win, hash, tab, left, moved, u);
    }
    SameMap(red, gs, red', gs');
  }

  // ----- when parting helps -----

  /** Every slot of a row is taken by a live entry of one tab2. */
  ghost predicate RowFull(m: map<Uid, Pair>, tab2: nat, row: nat) {
    forall c :: 0 <= c < REFS ==> Uid(tab2, row, c) in m
  }

  /** A full row that is not full of one tab2 belongs to a tab that parting can halve. */
  lemma {:induction false} CanHalve(red: seq<nat>, gs: seq<Grid>, cells: seq<Cell>, win: nat,
                                    hash: seq<byte> -> Address, m: map<Uid, Pair>, tab2: nat, row: nat)
    requires Holds(red, gs, cells, win, hash, m) && tab2 < TABS && row < ROWS
    requires forall c :: 0 <= c < REFS ==> gs[red[tab2]][row][c].Some?
    requires !RowFull(m, tab2, row)
    ensures cells[red[tab2]].Residue? && cells[red[tab2]].depth < TABS_BITS
  {
    var t := red[tab2];
    var c :| 0 <= c < REFS && Uid(tab2, row, c) !in m;
    assert Lookup(red, gs, Uid(tab2, row, c)).None?;
    assert Routed(gs[t], t, red, win, hash);
    var e := gs[t][row][c].value;
    assert AtHome(e, row, t, red, win, hash) && e.tab != tab2;
    assert InCell(cells[t], tab2) && InCell(cells[t], e.tab);
    if cells[t].depth == TABS_BITS {
      Pow2Tabs();
      DivUnique(tab2, TABS, 0, tab2);
      DivUnique(e.tab, TABS, 0, e.tab);
    }
  }

  /** Halving keeps every tab non-empty and puts each tab2 of the parted tab one level deeper. */
  lemma {:induction false} Halved(red: seq<nat>, cells: seq<Cell>, tab2: nat)
    requires Trie(red, cells) && tab2 < TABS
    requires forall t :: 0 <= t < |cells| ==> cells[t].Residue?
    requires cells[red[tab2]].depth < TABS_BITS
    ensures var s := SplitCells(cells, red[tab2]);
            && (forall t :: 0 <= t < |s| ==> s[t].Residue?)
            && Parted(red, red[tab2], |cells|)[tab2] < |s|
            && s[Parted(red, red[tab2], |cells|)[tab2]].depth == cells[red[tab2]].depth + 1
    ensures |cells| < TABS
  {
    KraftBounds(cells);
  }

  // ----- finding by key -----

  ghost predicate HasKey(m: map<Uid, Pair>, key: seq<byte>) {
    exists u :: u in m && m[u].key == key
  }

  /** The live UID with this key and the lowest ref. */
  ghost predicate LowestKey(m: map<Uid, Pair>, key: seq<byte>, u: Uid) {
    && u in m && m[u].key == key
    && forall w :: w in m && m[w].key == key ==> w.tab2 == u.tab2 && w.row == u.row && u.ref <= w.ref
  }

  /** A slot that the search by key accepts. */
  ghost predicate Match(e: Option<Entry>, tab2: nat, key: seq<byte>) {
    e.Some? && e.value.tab == tab2 && e.value.key == key
  }

  /** Every live entry with this key is in the row its hash leads to, so a scan of that row finds it. */
  lemma {:induction false} KeyInRow(red: seq<nat>, gs: seq<Grid>, cells: seq<Cell>, win: nat,
                                    hash: seq<byte> -> Address, m: map<Uid, Pair>, key: seq<byte>, w: Uid)
    requires Holds(red, gs, cells, win, hash, m) && w in m && m[w].key == key
    ensures UidOk(w) && w.tab2 == hash(key).tab2 && w.row == hash(key).row
    ensures Match(gs[red[w.tab2]][w.row][w.ref], w.tab2, key)
  {
    var t := red[w.tab2];
    assert Routed(gs[t], t, red, win, hash);
    assert AtHome(gs[t][w.row][w.ref].value, w.row, t, red, win, hash);
  }

  lemma {:induction false} FirstMatch(red: seq<nat>, gs: seq<Grid>, cells: seq<Cell>, win: nat,
                                      hash: seq<byte> -> Address, m: map<Uid, Pair>, key: seq<byte>, ref: nat)
    requires Holds(red, gs, cells, win, hash, m) && ref <= REFS
    requires var a := hash(key);
             && (forall c :: 0 <= c < ref ==> !Match(gs[red[a.tab2]][a.row][c], a.tab2, key))
             && (ref < REFS ==> Match(gs[red[a.tab2]][a.row][ref], a.tab2, key))
    ensures ref == REFS ==> !HasKey(m, key)
    ensures ref < REFS ==> LowestKey(m, key, Uid(hash(key).tab2, hash(key).row, ref))
  {
    forall w | w in m && m[w].key == key
      ensures w.tab2 == hash(key).tab2 && w.row == hash(key).row && ref <= w.ref
    {
      KeyInRow(red, gs, cells, win, hash, m, key, w);
    }
    if ref < REFS { LiveSlot(red, gs, cells, win, hash, m, Uid(hash(key).tab2, hash(key).row, ref)); }
  }

  /** The fingerprint filter of a key search never hides a match. */
  lemma {:induction false} RndAgrees(red: seq<nat>, gs: seq<Grid>, cells: seq<Cell>, win: nat,
                                     hash: seq<byte> -> Address, m: map<Uid, Pair>, key: seq<byte>, ref: nat)
    requires Holds(red, gs, cells, win, hash, m) && ref < REFS
    requires Match(gs[red[hash(key).tab2]][hash(key).row][ref], hash(key).tab2, key)
    ensures gs[red[hash(key).tab2]][hash(key).row][ref].value.rnd == hash(key).rnd
  {
    var t := red[hash(key).tab2];
    assert Routed(gs[t], t, red, win, hash);
    assert AtHome(gs[t][hash(key).row][ref].value, hash(key).row, t, red, win, hash);
  }

  // ----- the beginning -----

  /** A window as shf_attach leaves it: one empty tab, to which every tab2 is routed. */
  lemma {:induction false} InitialWindow(win: nat, hash: seq<byte> -> Address)
    ensures Holds(seq(TABS, i => 0), [EmptyGrid()], [Residue(0, 0)], win, hash, map[])
  {
    InitialTrie();
    var red, gs := seq(TABS, i => 0), [EmptyGrid()];
    assert Shapes(red, gs);
    assert MapOf(red, gs).Keys == {};
  }
}
