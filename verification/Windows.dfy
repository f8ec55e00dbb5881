/**
  One window of a SharedHashFile: put, get and delete by key or by UID over parting and shrinking tabs.
  The window is shown to behave as a finite map from UIDs to key/value pairs.
 */
module Windows {
  import opened Bytes
  import opened Arithmetic
  import opened Records
  import opened Tabs
  import opened TabFiles
  import opened Compaction
  import opened Redirect
  import opened Contents

  // ----- 32-bit UIDs -----

  const UID_NONE: nat := 0xffff_ffff

  /** 8 bits of window, 11 of tab2, 9 of row and 4 of ref, from the low end. */
  function PackUid(win: nat, u: Uid): nat {
    win + 0x100 * u.tab2 + 0x8_0000 * u.row + 0x1000_0000 * u.ref
  }

  function UnpackWin(n: nat): nat {
    n % 0x100
  }

  function UnpackUid(n: nat): (u: Uid)
    ensures UidOk(u)
  {
    Uid(n / 0x100 % TABS, n / 0x8_0000 % ROWS, n / 0x1000_0000 % REFS)
  }

  lemma {:induction false} UidRoundTrip(win: nat, u: Uid)
    requires win < WINS && UidOk(u)
    ensures PackUid(win, u) < U32 && UnpackWin(PackUid(win, u)) == win && UnpackUid(PackUid(win, u)) == u
  {
    var n, b := PackUid(win, u), u.row + 0x200 * u.ref;
    DivUnique(n, 0x100, u.tab2 + 0x800 * b, win);
    DivUnique(u.tab2 + 0x800 * b, 0x800, b, u.tab2);
    DivUnique(n, 0x8_0000, b, win + 0x100 * u.tab2);
    DivUnique(b, 0x200, u.ref, u.row);
    DivUnique(n, 0x1000_0000, u.ref, win + 0x100 * u.tab2 + 0x8_0000 * u.row);
  }

  /** Where each part is in the 32 bits. */
  lemma {:induction false} UidBits(win: nat, u: Uid)
    requires win < WINS && UidOk(u)
    ensures var n := PackUid(win, u);
            && n % 0x100 == win && n / 0x100 % 0x800 == u.tab2 && n / 0x8_0000 % 0x200 == u.row
            && n / 0x1000_0000 == u.ref
  {
    UidRoundTrip(win, u);
    DivUnique(PackUid(win, u), 0x1000_0000, u.ref, win + 0x100 * u.tab2 + 0x8_0000 * u.row);
  }

  /** The one slot whose UID reads as "no UID". */
  lemma {:induction false} UidNone(win: nat, u: Uid)
    requires win < WINS && UidOk(u)
    ensures PackUid(win, u) == UID_NONE <==> win == 255 && u == Uid(2047, 511, 15)
  {
    UidRoundTrip(win, u);
    UidRoundTrip(255, Uid(2047, 511, 15));
  }

  datatype PutResult = Stored(uid: nat) | TabOverflow

  datatype FindWhat = Look | CopyVal | Delete

  /** What the slots of each tab read. */
  ghost function Grids(tabs: seq<Tab>): (gs: seq<Grid>)
    reads tabs
    ensures |gs| == |tabs| && forall t :: 0 <= t < |tabs| ==> gs[t] == tabs[t].view
  {
    seq(|tabs|, t requires 0 <= t < |tabs| reads tabs => tabs[t].view)
  }

  class Window {
    const win: nat
    const hash: seq<byte> -> Address
    const factor: nat
    const redirect: array<nat>
    var tabs: seq<Tab>
    ghost var contents: map<Uid, Pair>
    ghost var cells: seq<Cell>
    ghost var Repr: set<object>

    /** The tabs are separate, valid files. */
    ghost predicate Files()
      reads this`tabs, this`Repr, tabs
    {
      && this !in Repr && redirect in Repr && (forall t :: 0 <= t < |tabs| ==> tabs[t] in Repr && tabs[t].Valid())
      && (forall s, t :: 0 <= s < t < |tabs| ==> tabs[s] != tabs[t])
    }

    /** The redirect array is a trie over the tabs, entries are at home, and `contents` is what they hold. */
    ghost predicate Sound()
      reads this, redirect, tabs
    {
      && win < WINS && factor >= 1 && Files() && |cells| == |tabs|
      && Shapes(redirect[..], Grids(tabs)) && (forall u :: u in contents ==> UidOk(u))
      && Holds(redirect[..], Grids(tabs), cells, win, hash, contents)
    }

    /** Between operations no tab is without tab2s. */
    ghost predicate Valid()
      reads this, redirect, tabs
    {
      Sound() && forall t :: 0 <= t < |cells| ==> cells[t].Residue?
    }

    /** A window as shf_attach creates it. */
    constructor (win: nat, hash: seq<byte> -> Address, factor: nat)
      requires win < WINS && factor >= 1
      ensures Valid() && contents == map[] && fresh(Repr)
      ensures this.win == win && this.hash == hash && this.factor == factor
    {
      var first := new Tab();
      this.win, this.hash, this.factor := win, hash, factor;
      redirect := new nat[TABS](i => 0);
      tabs := [first];
      contents, cells := map[], [Residue(0, 0)];
      Repr := {redirect, first};
      new;
      InitialWindow(win, hash);
      assert redirect[..] == seq(TABS, i => 0);
      assert Grids(tabs) == [EmptyGrid()];
    }

    /** Replaces a tab by a compacted copy: no lookup changes and no garbage is left. */
    method Shrink(tab: nat)
      requires Sound() && tab < |tabs|
      modifies this`tabs, this`Repr, tabs[tab]
      ensures Sound() && contents == old(contents) && Grids(tabs) == old(Grids(tabs))
      ensures |tabs| == |old(tabs)| && tabs[tab].dataFree == 0 && fresh(Repr - old(Repr)) && fresh(tabs[tab])
    {
      hide TabInv, Holds, Shapes, Files;
      InRepr();
      ghost var red := redirect[..];
      Replace(tab);
      assert redirect[..] == red;
    }

    lemma {:induction false} InRepr()
      requires Files()
      ensures this !in Repr && redirect in Repr && forall t :: 0 <= t < |tabs| ==> tabs[t] in Repr
    {
    }

    /** Puts a compacted copy in the place of a tab file. */
    method Replace(tab: nat)
      requires Files() && factor >= 1 && tab < |tabs|
      modifies this`tabs, this`Repr, tabs[tab]
      ensures Files() && Grids(tabs) == old(Grids(tabs))
      ensures |tabs| == |old(tabs)| && tabs[tab].dataFree == 0 && fresh(Repr - old(Repr)) && fresh(tabs[tab])
    {
      hide TabInv;
      var newTab := Compact(tabs[tab], factor);
      tabs := tabs[tab := newTab];
      Repr := Repr + {newTab};
    }

    /** Moves re-routed entries of one tab to a new tab file. */
    method MoveToNew(tab: nat)
      requires Files() && factor >= 1 && tab < |tabs|
      requires forall r, c :: 0 <= r < ROWS && 0 <= c < REFS && tabs[tab].view[r][c].Some? ==>
                 tabs[tab].view[r][c].value.tab < redirect.Length
      modifies this`tabs, this`Repr, tabs[tab]
      ensures Files() && |tabs| == |old(tabs)| + 1 && tabs[tab] == old(tabs[tab]) && fresh(Repr - old(Repr))
      ensures PartedGrids(old(tabs[tab].view), tabs[tab].view, tabs[|old(tabs)|].view, redirect[..], |old(tabs)|)
      ensures Grids(tabs) == old(Grids(tabs))[tab := tabs[tab].view] + [tabs[|old(tabs)|].view]
    {
      hide TabInv, PartedGrids, Tab.Valid;
      var newTab := new Tab();
      MoveRouted(tabs[tab], newTab, redirect, |tabs|, factor);
      tabs := tabs + [newTab];
      Repr := Repr + {newTab};
    }

    /** The first half of parting: the redirects, then the refs. */
    method Split(tab: nat)
      requires Sound() && tab < |tabs|
      modifies this`tabs, this`cells, this`Repr, redirect, tabs[tab]
      ensures Sound() && contents == old(contents)
      ensures redirect[..] == Parted(old(redirect[..]), tab, |old(tabs)|)
      ensures cells == SplitCells(old(cells), tab)
      ensures |tabs| == |old(tabs)| + 1 && tabs[tab] == old(tabs[tab]) && fresh(Repr - old(Repr))
    {
      hide TabInv, Holds, PartedGrids;
      ghost var red, gs := redirect[..], Grids(tabs);
      TabsInRange(red, gs, cells, win, hash, contents, tab);
      PartRedirect(redirect, tab, |tabs|);
      MoveToNew(tab);
      PartMap(red, gs, cells, win, hash, contents, tab, tabs[tab].view, tabs[|gs|].view);
      cells := SplitCells(cells, tab);
    }

    /** Splits a tab in two: every second tab2 routed to it goes, with its entries, to a new tab. */
    method Part(tab: nat)
      requires Sound() && tab < |tabs|
      modifies this`tabs, this`cells, this`Repr, redirect, tabs[tab]
      ensures Sound() && contents == old(contents)
      ensures redirect[..] == Parted(old(redirect[..]), tab, |old(tabs)|)
      ensures cells == SplitCells(old(cells), tab) && |tabs| == |old(tabs)| + 1
      ensures fresh(Repr - old(Repr)) && tabs[tab].dataFree == 0
    {
      hide TabInv, Holds;
      Split(tab);
      Shrink(tab);
    }

    /** The lowest free slot of a row, or REFS if the row is full. */
    method FirstFree(tab: Tab, row: nat) returns (ref: nat)
      requires tab.Valid() && row < ROWS
      ensures ref <= REFS && (ref < REFS ==> tab.view[row][ref].None?)
      ensures forall c :: 0 <= c < ref ==> tab.view[row][c].Some?
    {
      hide TabInv;
      ref := 0;
      while ref < REFS
        invariant ref <= REFS
        invariant forall c :: 0 <= c < ref ==> tab.view[row][c].Some?
      {
        var s := tab.Ref(row, ref);
        if s.pos == 0 { return; }
        ref := ref + 1;
      }
    }

    /** Appends to one tab file. */
    method AppendAt(t: nat, row: nat, ref: nat, tab2: nat, rnd: nat,
                    key: seq<byte>, val: Option<seq<byte>>, valLen: nat)
      requires Files() && factor >= 1 && t < |tabs| && row < ROWS && ref < REFS && tabs[t].view[row][ref].None?
      requires val.Some? ==> |val.value| == valLen
      requires Storable(key, TabFiles.Stored(val, valLen))
      modifies tabs[t]
      ensures Files()
      ensures Grids(tabs) == old(Grids(tabs))[t := SetView(old(tabs[t].view), row, ref,
                                                           Some(Entry(tab2, rnd, key, TabFiles.Stored(val, valLen))))]
    {
      hide TabInv;
      tabs[t].Append(factor, row, ref, tab2, rnd, key, val, valLen);
    }

    /** Deletes from one tab file. */
    method DeleteAt(t: nat, row: nat, ref: nat)
      requires Files() && t < |tabs| && row < ROWS && ref < REFS && tabs[t].view[row][ref].Some?
      modifies tabs[t]
      ensures Files() && Grids(tabs) == old(Grids(tabs))[t := SetView(old(tabs[t].view), row, ref, None)]
    {
      hide TabInv;
      var key, val := tabs[t].Read(row, ref);
      tabs[t].MarkAsDeleted(row, ref, |key|, |val|);
    }

    /** Stores a key and value in a free slot of the key's row. */
    method Place(a: Address, ref: nat, key: seq<byte>, val: Option<seq<byte>>, valLen: nat)
      requires Sound() && hash(key) == a && a.win == win && ref < REFS
      requires tabs[redirect[a.tab2]].view[a.row][ref].None?
      requires val.Some? ==> |val.value| == valLen
      requires Storable(key, TabFiles.Stored(val, valLen))
      modifies this`contents, tabs[redirect[a.tab2]]
      ensures Sound()
      ensures var u := Uid(a.tab2, a.row, ref);
              && u !in old(contents)
              && contents == old(contents)[u := Pair(key, TabFiles.Stored(val, valLen))]
    {
      hide TabInv, Holds;
      var t := redirect[a.tab2];
      ghost var red, gs := redirect[..], Grids(tabs);
      ghost var u, e := Uid(a.tab2, a.row, ref), Entry(a.tab2, a.rnd, key, TabFiles.Stored(val, valLen));
      PutWindow(red, gs, cells, win, hash, contents, u, e);
      AppendAt(t, a.row, ref, a.tab2, a.rnd, key, val, valLen);
      contents := contents[u := Pair(key, e.val)];
      assert redirect[..] == red;
    }

    /** Shrinks a tab whose garbage exceeds a fifth of its live bytes; the product is 32 bits wide. */
    method ShrinkAfterPut(tab: nat)
      requires Sound() && tab < |tabs|
      modifies this`tabs, this`Repr, tabs[tab]
      ensures Sound() && contents == old(contents) && Grids(tabs) == old(Grids(tabs)) && |tabs| == |old(tabs)|
      ensures tabs[tab].dataFree <= tabs[tab].dataUsed * 20 / 100 && fresh(Repr - old(Repr))
      ensures if old(tabs[tab].dataFree > tabs[tab].dataUsed * 20 % 0x1_0000_0000 / 100)
              then tabs[tab] != old(tabs[tab]) && tabs[tab].dataFree == 0 else tabs == old(tabs)
    {
      hide TabInv, Holds;
      if tabs[tab].dataFree > tabs[tab].dataUsed * 20 % U32 / 100 {
        Shrink(tab);
      }
    }

    /** Stores a key and value in the lowest free slot of the key's row, and collects garbage. */
    method Insert(a: Address, ref: nat, key: seq<byte>, val: Option<seq<byte>>, valLen: nat)
      requires Valid() && hash(key) == a && a.win == win && ref < REFS
      requires FreeAt(a, ref)
      requires val.Some? ==> |val.value| == valLen
      requires Storable(key, TabFiles.Stored(val, valLen))
      modifies this`tabs, this`contents, this`Repr, Repr
      ensures Valid() && |tabs| == |old(tabs)| && fresh(Repr - old(Repr))
      ensures var u := Uid(a.tab2, a.row, ref);
              && u !in old(contents)
              && contents == old(contents)[u := Pair(key, TabFiles.Stored(val, valLen))]
      ensures LowGarbage(a)
    {
      hide TabInv, Holds;
      Place(a, ref, key, val, valLen);
      ShrinkAfterPut(redirect[a.tab2]);
    }

    /** Every slot of the row a hash leads to is taken. */
    ghost predicate FullAt(a: Address)
      reads this, redirect, tabs
      requires Sound()
    {
      forall c :: 0 <= c < REFS ==> tabs[redirect[a.tab2]].view[a.row][c].Some?
    }

    /** The first free slot of the row a hash leads to. */
    ghost predicate FreeAt(a: Address, ref: nat)
      reads this, redirect, tabs
      requires Sound() && ref < REFS
    {
      && tabs[redirect[a.tab2]].view[a.row][ref].None?
      && forall c :: 0 <= c < ref ==> tabs[redirect[a.tab2]].view[a.row][c].Some?
    }

    /** The tab a hash leads to holds at most a fifth as much garbage as live data. */
    ghost predicate LowGarbage(a: Address)
      reads this, redirect, tabs
      requires Sound()
    {
      var t := tabs[redirect[a.tab2]];
      t.dataFree <= t.dataUsed * 20 / 100
    }

    /** Below the first free slot of a row, every slot is that of some live UID. */
    lemma {:induction false} TakenBelow(a: Address, ref: nat)
      requires Sound() && ref < REFS && FreeAt(a, ref)
      ensures forall r :: 0 <= r < ref ==> SlotTaken(contents, a.row, r)
    {
      hide TabInv, Holds;
      var t := redirect[a.tab2];
      forall r | 0 <= r < ref ensures SlotTaken(contents, a.row, r) {
        UsedSlot(redirect[..], Grids(tabs), cells, win, hash, contents, t, a.row, r);
      }
    }

    /** Parts the tab a full row belongs to; if other tab2s share the row, the tab is halved. */
    method PartRow(a: Address)
      requires Sound() && |tabs| < TABS
      requires forall c :: 0 <= c < REFS ==> tabs[redirect[a.tab2]].view[a.row][c].Some?
      modifies this`tabs, this`cells, this`Repr, Repr
      ensures Sound() && contents == old(contents) && |tabs| == |old(tabs)| + 1 && fresh(Repr - old(Repr))
      ensures old(Valid()) && !RowFull(old(contents), a.tab2, a.row) ==>
                Valid() && cells[redirect[a.tab2]].depth == old(cells[redirect[a.tab2]].depth) + 1
    {
      hide TabInv;
      ghost var halve := Valid() && !RowFull(contents, a.tab2, a.row);
      if halve {
        CanHalve(redirect[..], Grids(tabs), cells, win, hash, contents, a.tab2, a.row);
        Halved(redirect[..], cells, a.tab2);
      }
      Part(redirect[a.tab2]);
    }

    /** When every tab number is taken, only entries of one tab2 can fill a row. */
    lemma {:induction false} Exhausted(a: Address)
      requires Valid() && |tabs| >= TABS
      requires forall c :: 0 <= c < REFS ==> tabs[redirect[a.tab2]].view[a.row][c].Some?
      ensures RowFull(contents, a.tab2, a.row)
    {
      hide TabInv;
      if !RowFull(contents, a.tab2, a.row) {
        CanHalve(redirect[..], Grids(tabs), cells, win, hash, contents, a.tab2, a.row);
        Halved(redirect[..], cells, a.tab2);
      }
    }

    /** A free slot in the row of a hash: not all of the row is taken, and tab numbers are left. */
    lemma {:induction false} NotFull(a: Address, ref: nat)
      requires Sound() && ref < REFS && tabs[redirect[a.tab2]].view[a.row][ref].None?
      ensures !RowFull(contents, a.tab2, a.row)
      ensures Valid() ==> |tabs| <= TABS
    {
      hide TabInv;
      LiveSlot(redirect[..], Grids(tabs), cells, win, hash, contents, Uid(a.tab2, a.row, ref));
      if Valid() { KraftBounds(cells); }
    }

    /** Parts tabs until the row a hash leads to has a free slot: at most 11 times, and in vain
        exactly when live entries of the same tab2 fill the row, which ends in tab overflow. */
    method MakeRoom(a: Address) returns (ok: bool, ref: nat)
      requires Valid()
      modifies this`tabs, this`cells, this`Repr, Repr
      ensures Sound() && contents == old(contents) && fresh(Repr - old(Repr))
      ensures ok <==> !RowFull(old(contents), a.tab2, a.row)
      ensures ok ==> Valid() && ref < REFS && FreeAt(a, ref)
      ensures ok ==> |tabs| <= |old(tabs)| + TABS_BITS && |tabs| <= TABS
      ensures ok ==> (|tabs| > |old(tabs)| <==> old(FullAt(a)))
    {
      hide TabInv;
      ghost var full := RowFull(contents, a.tab2, a.row);
      while true
        invariant Sound() && contents == old(contents) && |old(tabs)| <= |tabs|
        invariant !full ==> Valid() && |tabs| - |old(tabs)| <= cells[redirect[a.tab2]].depth
        invariant fresh(Repr - old(Repr))
        invariant |tabs| > |old(tabs)| ==> old(FullAt(a))
        invariant |tabs| == |old(tabs)| ==> (FullAt(a) <==> old(FullAt(a)))
        decreases TABS - |tabs|
      {
        ref := FirstFree(tabs[redirect[a.tab2]], a.row);
        if ref < REFS {
          NotFull(a, ref);
          return true, ref;
        }
        if |tabs| >= TABS {
          if !full { Exhausted(a); }
          return false, ref;
        }
        PartRow(a);
      }
    }

    /** Stores a key and value under a fresh UID, or overflows when 16 live entries share its tab2 and row. */
    method Put(key: seq<byte>, val: Option<seq<byte>>, valLen: nat) returns (res: PutResult)
      requires Valid() && hash(key).win == win
      requires val.Some? ==> |val.value| == valLen
      requires Storable(key, TabFiles.Stored(val, valLen))
      modifies this`tabs, this`contents, this`cells, this`Repr, Repr
      ensures fresh(Repr - old(Repr))
      ensures res.TabOverflow? <==> RowFull(old(contents), hash(key).tab2, hash(key).row)
      ensures res.TabOverflow? ==> contents == old(contents)
      ensures res.TabOverflow? <==> forall c :: 0 <= c < 16 ==> Uid(hash(key).tab2, hash(key).row, c) in old(contents)
      ensures res.Stored? ==> (|tabs| > |old(tabs)| <==> old(FullAt(hash(key))))
      ensures res.Stored? ==>
                forall r :: 0 <= r < res.uid / 0x1000_0000 ==> SlotTaken(old(contents), hash(key).row, r)
      ensures res.Stored? ==>
                var u := UnpackUid(res.uid);
                && Valid() && res.uid == PackUid(win, u)
                && u.tab2 == hash(key).tab2 && u.row == hash(key).row && u !in old(contents)
                && contents == old(contents)[u := Pair(key, TabFiles.Stored(val, valLen))]
      ensures res.Stored? ==> res.uid % 0x100 == win && res.uid / 0x100 % 0x800 == hash(key).tab2
                              && res.uid / 0x8_0000 % 0x200 == hash(key).row && res.uid < 0x1_0000_0000
      ensures res.Stored? ==> LowGarbage(hash(key)) && |tabs| <= |old(tabs)| + TABS_BITS && |tabs| <= TABS
    {
      hide TabInv, Holds;
      var a := hash(key);
      var ok, ref := MakeRoom(a);
      if !ok { return TabOverflow; }
      UidRoundTrip(win, Uid(a.tab2, a.row, ref));
      UidBits(win, Uid(a.tab2, a.row, ref));
      TakenBelow(a, ref);
      Insert(a, ref, key, val, valLen);
      res := Stored(PackUid(win, Uid(a.tab2, a.row, ref)));
    }

    /** Scans the row of a hash for a key: fingerprint, tab2, key length and key must all agree. */
    method FindRef(a: Address, key: seq<byte>) returns (ref: nat)
      requires Sound() && hash(key) == a
      ensures ref <= REFS
      ensures ref == REFS ==> !HasKey(contents, key)
      ensures ref < REFS ==> LowestKey(contents, key, Uid(a.tab2, a.row, ref))
    {
      hide TabInv, Holds;
      var t := redirect[a.tab2];
      var tab := tabs[t];
      ref := 0;
      while ref < REFS
        invariant ref <= REFS
        invariant forall c :: 0 <= c < ref ==> !Match(tab.view[a.row][c], a.tab2, key)
      {
        if Match(tab.view[a.row][ref], a.tab2, key) {
          RndAgrees(redirect[..], Grids(tabs), cells, win, hash, contents, key, ref);
        }
        var s := tab.Ref(a.row, ref);
        if s.pos != 0 && s.rnd == a.rnd && s.tab == a.tab2 {
          var k, v := tab.Read(a.row, ref);
          if |k| == |key| && k == key { break; }
        }
        ref := ref + 1;
      }
      FirstMatch(redirect[..], Grids(tabs), cells, win, hash, contents, key, ref);
    }

    /** Whether a slot holds a live entry of the UID's tab2. */
    method FindUid(u: Uid) returns (found: bool)
      requires Sound() && UidOk(u)
      ensures found <==> u in contents
    {
      hide TabInv, Holds;
      LiveSlot(redirect[..], Grids(tabs), cells, win, hash, contents, u);
      var s := tabs[redirect[u.tab2]].Ref(u.row, u.ref);
      found := s.pos != 0 && s.tab == u.tab2;
    }

    /** Reads the value of a live UID. */
    method Fetch(u: Uid) returns (val: seq<byte>)
      requires Sound() && u in contents
      ensures val == contents[u].val
    {
      hide TabInv, Holds;
      LiveSlot(redirect[..], Grids(tabs), cells, win, hash, contents, u);
      var key, v := tabs[redirect[u.tab2]].Read(u.row, u.ref);
      val := v;
    }

    /** Marks a live UID's record as deleted. */
    method Remove(u: Uid)
      requires Valid() && u in contents
      modifies this`contents, tabs[redirect[u.tab2]]
      ensures Valid() && contents == old(contents) - {u}
    {
      hide TabInv, Holds;
      var t := redirect[u.tab2];
      ghost var red, gs := redirect[..], Grids(tabs);
      LiveSlot(red, gs, cells, win, hash, contents, u);
      assert tabs[t].view[u.row][u.ref].Some?;
      DeleteWindow(red, gs, cells, win, hash, contents, u);
      DeleteAt(t, u.row, u.ref);
      contents := contents - {u};
      assert redirect[..] == red;
    }

    /** Shrinks a tab whose garbage exceeds a quarter of its live bytes. */
    method ShrinkAfterGet(tab: nat)
      requires Valid() && tab < |tabs|
      modifies this`tabs, this`Repr, tabs[tab]
      ensures Valid() && contents == old(contents) && fresh(Repr - old(Repr))
      ensures |tabs| == |old(tabs)| && tabs[tab].dataFree <= tabs[tab].dataUsed / 4
      ensures if old(tabs[tab].dataFree > tabs[tab].dataUsed / 4)
              then tabs[tab] != old(tabs[tab]) && tabs[tab].dataFree == 0 else tabs == old(tabs)
    {
      hide TabInv, Holds;
      if tabs[tab].dataFree > tabs[tab].dataUsed / 4 {
        Shrink(tab);
      }
    }

    /** The tab of a UID holds at most a quarter as much garbage as live data. */
    ghost predicate QuarterGarbage(u: Uid)
      reads this, redirect, tabs
      requires Sound()
    {
      UidOk(u) && var t := tabs[redirect[u.tab2]]; t.dataFree <= t.dataUsed / 4
    }

    /** Finds an entry by key, when no UID is given, or else by UID. */
    method Locate(uid: nat, key: seq<byte>) returns (found: bool, u: Uid)
      requires Valid() && uid < U32
      requires if uid == UID_NONE then hash(key).win == win else UnpackWin(uid) == win
      ensures found <==> if uid == UID_NONE then HasKey(contents, key) else UnpackUid(uid) in contents
      ensures found ==> u in contents
      ensures found ==> if uid == UID_NONE then LowestKey(contents, key, u) else u == UnpackUid(uid)
    {
      hide TabInv, Holds;
      if uid == UID_NONE {
        var a := hash(key);
        var ref := FindRef(a, key);
        found, u := ref < REFS, Uid(a.tab2, a.row, ref);
      } else {
        u := UnpackUid(uid);
        found := FindUid(u);
      }
    }

    /** Reads a live entry's value, and copies or deletes it. */
    method Visit(u: Uid, what: FindWhat) returns (val: seq<byte>)
      requires Valid() && u in contents
      modifies this`tabs, this`contents, this`Repr, Repr
      ensures Valid() && fresh(Repr - old(Repr)) && val == old(contents)[u].val
      ensures contents == if what.Delete? then old(contents) - {u} else old(contents)
      ensures if what.CopyVal? then QuarterGarbage(u) else tabs == old(tabs)
    {
      hide TabInv, Holds;
      val := Fetch(u);
      match what {
        case Look =>
        case CopyVal => ShrinkAfterGet(redirect[u.tab2]);
        case Delete => Remove(u);
      }
    }

    /** Finds an entry by key or UID, then copies its value or deletes it. */
    method Find(uid: nat, key: seq<byte>, what: FindWhat) returns (found: bool, u: Uid, val: seq<byte>)
      requires Valid() && uid < U32
      requires if uid == UID_NONE then hash(key).win == win else UnpackWin(uid) == win
      modifies this`tabs, this`contents, this`Repr, Repr
      ensures Valid() && fresh(Repr - old(Repr))
      ensures found <==> if uid == UID_NONE then HasKey(old(contents), key) else UnpackUid(uid) in old(contents)
      ensures found ==> if uid == UID_NONE then LowestKey(old(contents), key, u) else u == UnpackUid(uid)
      ensures found ==> u in old(contents) && val == old(contents)[u].val
      ensures contents == if found && what.Delete? then old(contents) - {u} else old(contents)
      ensures uid == UID_NONE ==> (found <==> exists w :: w in old(contents) && old(contents)[w].key == key)
      ensures uid == UID_NONE && found ==>
                && old(contents)[u].key == key
                && forall w :: w in old(contents) && old(contents)[w].key == key ==> u.ref <= w.ref
      ensures if found && what.CopyVal? then QuarterGarbage(u) else tabs == old(tabs)
    {
      hide TabInv, Holds;
      found, u := Locate(uid, key);
      val := [];
      if found {
        val := Visit(u, what);
      }
    }
  }
}
