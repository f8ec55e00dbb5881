/**
  Moving records between tab files: the copying loop of a shrink, which leaves garbage behind,
  and that of a parting, which moves the records whose tab2 has been re-routed.
 */
module Compaction {
  import opened Tabs
  import opened TabFiles

  /** Slot (r, c) comes before slot (row, ref) in the order the loops visit them. */
  ghost predicate Before(r: nat, c: nat, row: nat, ref: nat) {
    r < row || (r == row && c < ref)
  }

  /** The entries of a grid whose tab2 the redirect array routes to `tab`. */
  ghost predicate RoutedTo(e: Option<Entry>, redirect: seq<nat>, tab: nat) {
    e.Some? && e.value.tab < |redirect| && redirect[e.value.tab] == tab
  }

  ghost function Moved(g: Grid, redirect: seq<nat>, tab: nat, r: nat, c: nat): Option<Entry>
    requires GridShape(g) && r < ROWS && c < REFS
  {
    if RoutedTo(g[r][c], redirect, tab) then g[r][c] else None
  }

  ghost function Left(g: Grid, redirect: seq<nat>, tab: nat, r: nat, c: nat): Option<Entry>
    requires GridShape(g) && r < ROWS && c < REFS
  {
    if RoutedTo(g[r][c], redirect, tab) then None else g[r][c]
  }

  /** The two grids a parted tab leaves: what stayed and what moved. */
  ghost predicate PartedGrids(g: Grid, left: Grid, moved: Grid, red': seq<nat>, tabNew: nat) {
    && GridShape(g) && GridShape(left) && GridShape(moved)
    && (forall r, c :: 0 <= r < ROWS && 0 <= c < REFS ==> left[r][c] == Left(g, red', tabNew, r, c))
    && (forall r, c :: 0 <= r < ROWS && 0 <= c < REFS ==> moved[r][c] == Moved(g, red', tabNew, r, c))
  }

  /** Copies what slot (row, ref) of the old tab refers to, and deletes it there. */
  method CopyRef(from: Tab, into: Tab, factor: nat, row: nat, ref: nat)
    requires from != into && from.Valid() && into.Valid() && factor >= 1 && row < ROWS && ref < REFS
    requires from.view[row][ref].Some? && into.view[row][ref].None?
    modifies from, into
    ensures from.Valid() && from.view == SetView(old(from.view), row, ref, None)
    ensures into.Valid() && into.view == SetView(old(into.view), row, ref, old(from.view[row][ref]))
    ensures into.dataFree == old(into.dataFree)
  {
    hide TabInv;
    var s := from.Ref(row, ref);
    var key, val := from.Read(row, ref);
    into.Append(factor, row, ref, s.tab, s.rnd, key, Some(val), |val|);
    from.MarkAsDeleted(row, ref, |key|, |val|);
  }

  /** A new tab file holding what the old one holds, with no garbage. */
  method Compact(oldTab: Tab, factor: nat) returns (newTab: Tab)
    requires oldTab.Valid() && factor >= 1
    modifies oldTab
    ensures fresh(newTab) && newTab.Valid() && newTab.view == old(oldTab.view)
    ensures newTab.dataFree == 0
  {
    hide TabInv;
    ghost var g := oldTab.view;
    newTab := new Tab();
    for row := 0 to ROWS
      invariant oldTab.Valid() && newTab.Valid() && newTab.dataFree == 0
      invariant forall r, c :: 0 <= r < ROWS && 0 <= c < REFS ==>
                  newTab.view[r][c] == if Before(r, c, row, 0) then g[r][c] else None
      invariant forall r, c :: 0 <= r < ROWS && 0 <= c < REFS ==>
                  oldTab.view[r][c] == if Before(r, c, row, 0) then None else g[r][c]
    {
      for ref := 0 to REFS
        invariant oldTab.Valid() && newTab.Valid() && newTab.dataFree == 0
        invariant forall r, c :: 0 <= r < ROWS && 0 <= c < REFS ==>
                    newTab.view[r][c] == if Before(r, c, row, ref) then g[r][c] else None
        invariant forall r, c :: 0 <= r < ROWS && 0 <= c < REFS ==>
                    oldTab.view[r][c] == if Before(r, c, row, ref) then None else g[r][c]
      {
        var s := oldTab.Ref(row, ref);
        if s.pos != 0 {
          CopyRef(oldTab, newTab, factor, row, ref);
        }
      }
    }
    assert forall r :: 0 <= r < ROWS ==> newTab.view[r] == g[r];
    assert newTab.view == g;
  }

  /** Moves to an empty new tab the entries that the redirect array now routes to it. */
  method MoveRouted(oldTab: Tab, newTab: Tab, redirect: array<nat>, tabNew: nat, factor: nat)
    requires oldTab != newTab && oldTab.Valid() && newTab.Valid() && factor >= 1
    requires newTab.view == EmptyGrid()
    requires forall r, c :: 0 <= r < ROWS && 0 <= c < REFS && oldTab.view[r][c].Some? ==>
               oldTab.view[r][c].value.tab < redirect.Length
    modifies oldTab, newTab
    ensures oldTab.Valid() && newTab.Valid()
    ensures PartedGrids(old(oldTab.view), oldTab.view, newTab.view, redirect[..], tabNew)
  {
    hide TabInv;
    ghost var g, red := oldTab.view, redirect[..];
    for row := 0 to ROWS
      invariant oldTab.Valid() && newTab.Valid() && redirect[..] == red
      invariant forall r, c :: 0 <= r < ROWS && 0 <= c < REFS ==>
                  newTab.view[r][c] == if Before(r, c, row, 0) then Moved(g, red, tabNew, r, c) else None
      invariant forall r, c :: 0 <= r < ROWS && 0 <= c < REFS ==>
                  oldTab.view[r][c] == if Before(r, c, row, 0) then Left(g, red, tabNew, r, c) else g[r][c]
    {
      for ref := 0 to REFS
        invariant oldTab.Valid() && newTab.Valid() && redirect[..] == red
        invariant forall r, c :: 0 <= r < ROWS && 0 <= c < REFS ==>
                    newTab.view[r][c] == if Before(r, c, row, ref) then Moved(g, red, tabNew, r, c) else None
        invariant forall r, c :: 0 <= r < ROWS && 0 <= c < REFS ==>
                    oldTab.view[r][c] == if Before(r, c, row, ref) then Left(g, red, tabNew, r, c) else g[r][c]
      {
        var s := oldTab.Ref(row, ref);
        if s.pos != 0 {
          var tab := redirect[s.tab];
          if tab == tabNew {
            CopyRef(oldTab, newTab, factor, row, ref);
          }
        }
      }
    }
  }
}
