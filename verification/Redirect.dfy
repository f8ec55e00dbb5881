/**
  The per-window redirect array of a SharedHashFile: it maps each of the 2,048 logical
  tables (tab2) to a physical tab, and parting a tab re-routes every second tab2.
  The array is shown to be an extendible-hash trie at all times.
 */
module Redirect {
  import opened Arithmetic

  const TABS_BITS: nat := 11
  const TABS: nat := 2048

  // ----- parting the redirect array -----

  /** How many tab2s below `tab2` are routed to `tab`. */
  function Rank(r: seq<nat>, tab: nat, tab2: nat): (n: nat)
    requires tab2 <= |r|
    ensures n <= tab2
  {
    if tab2 == 0 then 0 else Rank(r, tab, tab2 - 1) + (if r[tab2 - 1] == tab then 1 else 0)
  }

  /** Every second tab2 routed to `tabOld`, counting from the second, is re-routed to `tabNew`. */
  function Parted(r: seq<nat>, tabOld: nat, tabNew: nat): (p: seq<nat>)
    ensures |p| == |r|
    ensures forall i :: 0 <= i < |r| ==>
              p[i] == if r[i] == tabOld && Rank(r, tabOld, i) % 2 == 1 then tabNew else r[i]
  {
    seq(|r|, i requires 0 <= i < |r| =>
      if r[i] == tabOld && Rank(r, tabOld, i) % 2 == 1 then tabNew else r[i])
  }

  /** The toggling loop of shf_tab_part, in place on the redirect array. */
  method PartRedirect(redirect: array<nat>, tabOld: nat, tabNew: nat)
    requires forall i :: 0 <= i < redirect.Length ==> redirect[i] < tabNew
    modifies redirect
    ensures redirect[..] == Parted(old(redirect[..]), tabOld, tabNew)
  {
    hide Parted;
    ghost var was := redirect[..];
    ghost var goal := Parted(was, tabOld, tabNew);
    var tabSwitch := false;
    for tab2 := 0 to redirect.Length
      invariant tabSwitch == (Rank(was, tabOld, tab2) % 2 == 1)
      invariant forall i :: 0 <= i < tab2 ==> redirect[i] == goal[i]
      invariant forall i :: tab2 <= i < redirect.Length ==> redirect[i] == was[i]
    {
      var tab := redirect[tab2];
      if tab == tabOld {
        redirect[tab2] := if tabSwitch then tabNew else tabOld;
        tabSwitch := !tabSwitch;
      }
      assert redirect[tab2] == goal[tab2];
    }
  }

  // ----- residue classes -----

  /** The tab2s routed to one tab: a residue class modulo a power of two, or none. */
  datatype Cell = Residue(depth: nat, rest: nat) | Nothing

  predicate CellOk(c: Cell) {
    c.Residue? ==> c.depth <= TABS_BITS && c.rest < Pow2(c.depth)
  }

  predicate InCell(c: Cell, tab2: nat) {
    c.Residue? && tab2 % Pow2(c.depth) == c.rest
  }

  function Weight(c: Cell): (w: nat)
    requires CellOk(c)
  {
    if c.Residue? then Pow2(TABS_BITS - c.depth) else 0
  }

  ghost predicate CellsOk(cells: seq<Cell>) {
    forall t :: 0 <= t < |cells| ==> CellOk(cells[t])
  }

  function Kraft(cells: seq<Cell>): (w: nat)
    requires CellsOk(cells)
  {
    if cells == [] then 0 else Kraft(cells[..|cells| - 1]) + Weight(cells[|cells| - 1])
  }

  /** Entry i of the array names tab t exactly when i lies in cell t; the cells partition 0..TABS-1. */
  ghost predicate Trie(r: seq<nat>, cells: seq<Cell>) {
    && |r| == TABS
    && CellsOk(cells)
    && (forall i :: 0 <= i < TABS ==> r[i] < |cells|)
    && (forall i, t {:trigger InCell(cells[t], i)} :: 0 <= i < TABS && 0 <= t < |cells| ==>
          (r[i] == t <==> InCell(cells[t], i)))
    && Kraft(cells) == TABS
  }

  /** What parting does to the cells: the old one keeps its even half, a new one takes the odd half. */
  function SplitCells(cells: seq<Cell>, tab: nat): (s: seq<Cell>)
    requires tab < |cells|
  {
    match cells[tab]
    case Nothing => cells + [Nothing]
    case Residue(d, a) =>
      if d < TABS_BITS then
        cells[tab := Residue(d + 1, a)] + [Residue(d + 1, a + Pow2(d))]
      else
        cells + [Nothing]
  }

  lemma {:induction false} RankInCell(r: seq<nat>, tab: nat, d: nat, a: nat, tab2: nat)
    requires tab2 <= |r| && a < Pow2(d)
    requires forall i :: 0 <= i < |r| ==> (r[i] == tab <==> InCell(Residue(d, a), i))
    ensures Rank(r, tab, tab2) == tab2 / Pow2(d) + (if tab2 % Pow2(d) > a then 1 else 0)
  {
    var p := Pow2(d);
    if tab2 == 0 {
      DivUnique(0, p, 0, 0);
    } else {
      RankInCell(r, tab, d, a, tab2 - 1);
      DivSucc(tab2 - 1, p);
      assert r[tab2 - 1] == tab <==> InCell(Residue(d, a), tab2 - 1);
    }
  }

  /** Which half of a residue class a member falls into. */
  lemma {:induction false} Halves(i: nat, p: nat, a: nat)
    requires a < p
    ensures i % (2 * p) == a <==> i % p == a && (i / p) % 2 == 0
    ensures i % (2 * p) == a + p <==> i % p == a && (i / p) % 2 == 1
  {
    DivNat(i, p);
    var q: nat, m := i / p, i % p;
    assert i == q * p + m;
    var k := q / 2;
    TimesTwo(k, p);
    if q % 2 == 0 {
      DivUnique(i, 2 * p, k, m);
    } else {
      DivUnique(i, 2 * p, k, m + p);
    }
  }

  lemma {:induction false} KraftUpdate(cells: seq<Cell>, t: nat, c: Cell)
    requires CellsOk(cells) && t < |cells| && CellOk(c)
    ensures CellsOk(cells[t := c])
    ensures Kraft(cells[t := c]) == Kraft(cells) - Weight(cells[t]) + Weight(c)
  {
    var n := |cells| - 1;
    var s := cells[t := c];
    if t == n {
      assert s[..n] == cells[..n];
    } else {
      assert s[..n] == cells[..n][t := c];
      KraftUpdate(cells[..n], t, c);
    }
  }

  lemma {:induction false} KraftAppend(cells: seq<Cell>, c: Cell)
    requires CellsOk(cells) && CellOk(c)
    ensures CellsOk(cells + [c])
    ensures Kraft(cells + [c]) == Kraft(cells) + Weight(c)
  {
    assert (cells + [c])[..|cells|] == cells;
  }

  /** Every live tab has a non-empty cell, so there are never more tabs than weight. */
  lemma {:induction false} KraftBounds(cells: seq<Cell>)
    requires CellsOk(cells)
    requires forall t :: 0 <= t < |cells| ==> cells[t].Residue?
    ensures |cells| <= Kraft(cells)
    ensures forall t :: 0 <= t < |cells| && cells[t].depth < TABS_BITS ==> |cells| < Kraft(cells)
  {
    if cells != [] {
      var n := |cells| - 1;
      KraftBounds(cells[..n]);
      assert cells[n].depth < TABS_BITS ==> Weight(cells[n]) >= 2;
      forall t | 0 <= t < n && cells[t].depth < TABS_BITS ensures |cells| < Kraft(cells) {
        assert cells[..n][t] == cells[t];
      }
    }
  }

  lemma {:induction false} HalfWeights(d: nat, a: nat)
    requires d < TABS_BITS && a < Pow2(d)
    ensures CellOk(Residue(d + 1, a)) && CellOk(Residue(d + 1, a + Pow2(d)))
    ensures Weight(Residue(d, a)) == Weight(Residue(d + 1, a)) + Weight(Residue(d + 1, a + Pow2(d)))
  {
    var n := TABS_BITS - d - 1;
    assert Pow2(n + 1) == 2 * Pow2(n);
    assert Pow2(d + 1) == 2 * Pow2(d);
  }

  lemma {:induction false} KraftSplit(cells: seq<Cell>, tab: nat, left: Cell, right: Cell)
    requires CellsOk(cells) && tab < |cells| && CellOk(left) && CellOk(right)
    requires Weight(cells[tab]) == Weight(left) + Weight(right)
    ensures CellsOk(cells[tab := left] + [right])
    ensures Kraft(cells[tab := left] + [right]) == Kraft(cells)
  {
    KraftUpdate(cells, tab, left);
    KraftAppend(cells[tab := left], right);
  }

  lemma {:induction false} SplitWeights(cells: seq<Cell>, tab: nat)
    requires CellsOk(cells) && tab < |cells|
    ensures CellsOk(SplitCells(cells, tab))
    ensures Kraft(SplitCells(cells, tab)) == Kraft(cells)
  {
    hide Kraft, Pow2;
    match cells[tab]
    case Nothing => KraftAppend(cells, Nothing);
    case Residue(d, a) =>
      assert CellOk(cells[tab]);
      if d < TABS_BITS {
        var left, right := Residue(d + 1, a), Residue(d + 1, a + Pow2(d));
        HalfWeights(d, a);
        KraftSplit(cells, tab, left, right);
      } else {
        KraftAppend(cells, Nothing);
      }
  }

  lemma {:induction false} Pow2Tabs()
    ensures Pow2(TABS_BITS) == TABS
  {
    assert Pow2(4) == 16;
    assert Pow2(8) == 256;
    assert Pow2(10) == 1024;
    assert Pow2(11) == 2048;
  }

  /** After parting, the two halves of the parted tab's class are residue classes again. */
  lemma {:induction false} PartedRoutes(r: seq<nat>, cells: seq<Cell>, tab: nat, i: nat, t: nat)
    requires Trie(r, cells) && tab < |cells| && i < TABS && t < |cells| + 1
    ensures Parted(r, tab, |cells|)[i] == t <==> InCell(SplitCells(cells, tab)[t], i)
  {
    assert r[i] == tab <==> InCell(cells[tab], i);
    if t < |cells| { assert r[i] == t <==> InCell(cells[t], i); }
    if cells[tab].Residue? {
      var d, a := cells[tab].depth, cells[tab].rest;
      assert Pow2(d + 1) == 2 * Pow2(d);
      hide Pow2;
      RankInCell(r, tab, d, a, i);
      if d < TABS_BITS {
        Halves(i, Pow2(d), a);
      } else {
        Pow2Tabs();
        DivUnique(i, TABS, 0, i);
      }
    }
  }

  /** Without counting: the lowest tab2 of the parted tab stays with it. */
  lemma {:induction false} LowestStays(r: seq<nat>, tab: nat, tabNew: nat, i: nat)
    requires i < |r| && r[i] == tab && forall k :: 0 <= k < i ==> r[k] != tab
    ensures Parted(r, tab, tabNew)[i] == tab
  {
    RankNone(r, tab, 0, i);
  }

  /** And of every two that follow each other, one goes to the new tab. */
  lemma {:induction false} Alternates(r: seq<nat>, tab: nat, tabNew: nat, i: nat, j: nat)
    requires tab != tabNew && i < j < |r| && r[i] == r[j] == tab && forall k :: i < k < j ==> r[k] != tab
    ensures Parted(r, tab, tabNew)[i] == tab <==> Parted(r, tab, tabNew)[j] == tabNew
  {
    hide Rank;
    RankNone(r, tab, i + 1, j);
    RankNext(r, tab, i);
    OneGoes(r, tab, tabNew, i);
    OneGoes(r, tab, tabNew, j);
    hide Parted;
    var n := Rank(r, tab, i);
    assert (n + 1) % 2 == 1 - n % 2;
  }

  lemma {:induction false} RankNext(r: seq<nat>, tab: nat, i: nat)
    requires i < |r| && r[i] == tab
    ensures Rank(r, tab, i + 1) == Rank(r, tab, i) + 1
  {
  }

  lemma {:induction false} OneGoes(r: seq<nat>, tab: nat, tabNew: nat, i: nat)
    requires i < |r| && r[i] == tab
    ensures Parted(r, tab, tabNew)[i] == if Rank(r, tab, i) % 2 == 1 then tabNew else tab
  {
    hide Rank;
  }

  lemma {:induction false} RankNone(r: seq<nat>, tab: nat, i: nat, j: nat)
    requires i <= j <= |r| && forall k :: i <= k < j ==> r[k] != tab
    ensures Rank(r, tab, j) == Rank(r, tab, i)
    decreases j
  {
    if i < j { RankNone(r, tab, i, j - 1); }
  }

  /** Parting keeps the array a trie. */
  lemma {:induction false} PartedTrie(r: seq<nat>, cells: seq<Cell>, tab: nat)
    requires Trie(r, cells) && tab < |cells|
    ensures Trie(Parted(r, tab, |cells|), SplitCells(cells, tab))
  {
    SplitWeights(cells, tab);
    var p, s := Parted(r, tab, |cells|), SplitCells(cells, tab);
    assert |s| == |cells| + 1;
    forall i, t | 0 <= i < TABS && 0 <= t < |s| ensures p[i] == t <==> InCell(s[t], i) {
      PartedRoutes(r, cells, tab, i, t);
    }
  }

  /** The array as shf_attach leaves it: one tab, every entry zero. */
  lemma {:induction false} InitialTrie()
    ensures Trie(seq(TABS, i => 0), [Residue(0, 0)])
  {
    Pow2Tabs();
    var cells := [Residue(0, 0)];
    assert cells[..0] == [];
    assert Kraft(cells) == Weight(cells[0]);
    forall i, t | 0 <= i < TABS && 0 <= t < 1 ensures 0 == t <==> InCell(cells[t], i) {
      assert Pow2(0) == 1;
    }
  }
}
