/**
  The IPC queues as they are linked: one shared array of links and a head/tail/size record for each list.
  Moving items between lists only touches the ends of the lists. The locked tail keeps a stale back link
  after a partial flush, so a list is a forward chain with correct interior back links.
 */
module QueueLinks {
  import opened QueueLists

  const NONE: nat := 0xffff_ffff

  datatype Qid = Qid(head: nat, tail: nat, size: nat)

  const EMPTY := Qid(NONE, NONE, 0)

  ghost predicate Distinct(xs: seq<nat>) {
    forall i, j :: 0 <= i < j < |xs| ==> xs[i] != xs[j]
  }

  ghost predicate Disjoint(xs: seq<nat>, ys: seq<nat>) {
    forall i, j :: 0 <= i < |xs| && 0 <= j < |ys| ==> xs[i] != ys[j]
  }

  ghost predicate InRange(xs: seq<nat>, n: nat) {
    forall i :: 0 <= i < |xs| ==> xs[i] < n
  }

  /** The record r and the links describe the items xs, tail first. */
  ghost predicate Chain(r: Qid, xs: seq<nat>, nx: seq<nat>, ls: seq<nat>) {
    && r.size == |xs| && |nx| == |ls| <= NONE && InRange(xs, |nx|)
    && if xs == [] then r == EMPTY
       else
         && r.tail == xs[0] && r.head == xs[|xs| - 1] && nx[xs[|xs| - 1]] == NONE
         && (forall i :: 0 <= i < |xs| - 1 ==> nx[xs[i]] == xs[i + 1])
         && (forall i :: 0 < i < |xs| ==> ls[xs[i]] == xs[i - 1])
  }

  /** A chain depends on the links of its own items only. */
  lemma {:induction false} ChainFrame(r: Qid, xs: seq<nat>, nx: seq<nat>, ls: seq<nat>, nx': seq<nat>, ls': seq<nat>)
    requires Chain(r, xs, nx, ls) && |nx'| == |ls'| == |nx|
    requires forall i :: 0 <= i < |xs| ==> nx'[xs[i]] == nx[xs[i]] && ls'[xs[i]] == ls[xs[i]]
    ensures Chain(r, xs, nx', ls')
  {
  }

  // ----- moving the first n items of one list to the head of another -----

  function MovedNext(nx: seq<nat>, to: Qid, tail: nat, last: nat): seq<nat>
    requires last < |nx| && (to.head != NONE ==> to.head < |nx|)
  {
    if to.head == NONE then nx[last := NONE] else nx[last := NONE][to.head := tail]
  }

  function MovedTo(to: Qid, tail: nat, last: nat, n: nat): Qid {
    Qid(last, if to.head == NONE then tail else to.tail, to.size + n)
  }

  function MovedFrom(from: Qid, rest: nat, n: nat): Qid
    requires n <= from.size
  {
    if from.size - n > 0 then Qid(from.head, rest, from.size - n) else EMPTY
  }

  lemma {:induction false} MoveTo(nx: seq<nat>, ls: seq<nat>, to: Qid, xs: seq<nat>, from: Qid, ys: seq<nat>, n: nat)
    requires Chain(to, xs, nx, ls) && Chain(from, ys, nx, ls) && 0 < n <= |ys|
    requires Distinct(xs) && Distinct(ys) && Disjoint(xs, ys)
    ensures Chain(MovedTo(to, ys[0], ys[n - 1], n), xs + ys[..n],
                  MovedNext(nx, to, ys[0], ys[n - 1]), ls[ys[0] := to.head])
  {
    var zs, nx', ls' := xs + ys[..n], MovedNext(nx, to, ys[0], ys[n - 1]), ls[ys[0] := to.head];
    var r := MovedTo(to, ys[0], ys[n - 1], n);
    assert zs[|xs|] == ys[0] && zs[|zs| - 1] == ys[n - 1];
    forall i | 0 <= i < |zs| - 1 ensures nx'[zs[i]] == zs[i + 1] {
      if i < |xs| { assert zs[i] == xs[i]; } else { assert zs[i] == ys[i - |xs|]; }
      if i + 1 < |xs| { assert zs[i + 1] == xs[i + 1]; } else { assert zs[i + 1] == ys[i + 1 - |xs|]; }
    }
    forall i | 0 < i < |zs| ensures ls'[zs[i]] == zs[i - 1] {
      if i < |xs| { assert zs[i] == xs[i]; } else { assert zs[i] == ys[i - |xs|]; }
      if i - 1 < |xs| { assert zs[i - 1] == xs[i - 1]; } else { assert zs[i - 1] == ys[i - 1 - |xs|]; }
    }
    forall i | 0 <= i < |zs| ensures zs[i] < |nx'| {
      if i < |xs| { assert zs[i] == xs[i]; } else { assert zs[i] == ys[i - |xs|]; }
    }
  }

  lemma {:induction false} MoveFrom(nx: seq<nat>, ls: seq<nat>, to: Qid, xs: seq<nat>, from: Qid, ys: seq<nat>, n: nat)
    requires Chain(to, xs, nx, ls) && Chain(from, ys, nx, ls) && 0 < n <= |ys|
    requires Distinct(ys) && Disjoint(xs, ys)
    ensures Chain(MovedFrom(from, nx[ys[n - 1]], n), ys[n..],
                  MovedNext(nx, to, ys[0], ys[n - 1]), ls[ys[0] := to.head])
  {
    var zs, nx' := ys[n..], MovedNext(nx, to, ys[0], ys[n - 1]);
    assert xs != [] ==> to.head == xs[|xs| - 1];
    forall i | 0 <= i < |zs| ensures zs[i] == ys[n + i] && nx'[zs[i]] == nx[zs[i]] && zs[i] != ys[0] {
    }
    forall i | 0 < i < |zs| ensures ls[ys[0] := to.head][zs[i]] == zs[i - 1] {
      assert zs[i] == ys[n + i] && zs[i - 1] == ys[n + i - 1];
    }
    forall i | 0 <= i < |zs| - 1 ensures nx'[zs[i]] == zs[i + 1] {
      assert zs[i] == ys[n + i] && zs[i + 1] == ys[n + i + 1];
    }
  }

  // ----- taking the tail -----

  function TakenNext(ls: seq<nat>, next: nat): seq<nat>
    requires next != NONE ==> next < |ls|
  {
    if next == NONE then ls else ls[next := NONE]
  }

  function TakenFrom(from: Qid, next: nat): Qid
    requires from.size > 0
  {
    Qid(if next == NONE then NONE else from.head, next, from.size - 1)
  }

  lemma {:induction false} TakeTail(nx: seq<nat>, ls: seq<nat>, from: Qid, ys: seq<nat>)
    requires Chain(from, ys, nx, ls) && Distinct(ys) && ys != []
    ensures nx[ys[0]] != NONE ==> nx[ys[0]] < |ls| && |ys| > 1 && nx[ys[0]] == ys[1]
    ensures nx[ys[0]] == NONE ==> |ys| == 1
    ensures Chain(TakenFrom(from, nx[ys[0]]), ys[1..], nx, TakenNext(ls, nx[ys[0]]))
  {
    var zs := ys[1..];
    if |ys| > 1 {
      assert nx[ys[0]] == ys[1];
      forall i | 0 <= i < |zs| - 1 ensures nx[zs[i]] == zs[i + 1] {
        assert zs[i] == ys[i + 1] && zs[i + 1] == ys[i + 2];
      }
      forall i | 0 < i < |zs| ensures TakenNext(ls, nx[ys[0]])[zs[i]] == zs[i - 1] {
        assert zs[i] == ys[i + 1] && zs[i - 1] == ys[i];
      }
    }
  }

  // ----- ownership -----

  /** Where an item is: in a list, or in a process's hand. */
  datatype Place = At(loc: Loc) | Hand(p: nat)

  ghost predicate Simple(lists: Lists, n: nat) {
    forall loc :: loc in lists ==> Distinct(lists[loc]) && InRange(lists[loc], n)
  }

  ghost predicate ListedThere(lists: Lists, owner: seq<Place>)
    requires Simple(lists, |owner|)
  {
    forall loc, k :: loc in lists && 0 <= k < |lists[loc]| ==> owner[lists[loc][k]] == At(loc)
  }

  ghost predicate FoundThere(lists: Lists, owner: seq<Place>) {
    forall x :: 0 <= x < |owner| && owner[x].At? ==> owner[x].loc in lists && x in lists[owner[x].loc]
  }

  /** The items of each list are exactly those placed there, once each. */
  ghost predicate Owned(lists: Lists, owner: seq<Place>) {
    Simple(lists, |owner|) && ListedThere(lists, owner) && FoundThere(lists, owner)
  }

  /** Every list is a chain; a batch's tail has no back link. */
  ghost predicate AllLinked(rec: map<Loc, Qid>, lists: Lists, nx: seq<nat>, ls: seq<nat>) {
    && rec.Keys == lists.Keys
    && (forall loc :: loc in lists ==> Chain(rec[loc], lists[loc], nx, ls))
    && (forall loc :: loc in lists && !loc.Locked? && lists[loc] != [] ==> ls[lists[loc][0]] == NONE)
  }

  ghost predicate Space(rec: map<Loc, Qid>, lists: Lists, nx: seq<nat>, ls: seq<nat>, owner: seq<Place>) {
    Owned(lists, owner) && AllLinked(rec, lists, nx, ls) && |owner| == |nx| == |ls|
  }

  lemma {:induction false} Separate(lists: Lists, owner: seq<Place>, a: Loc, b: Loc)
    requires Owned(lists, owner) && a in lists && b in lists && a != b
    ensures Disjoint(lists[a], lists[b])
  {
    forall i, j | 0 <= i < |lists[a]| && 0 <= j < |lists[b]| ensures lists[a][i] != lists[b][j] {
      assert owner[lists[a][i]] == At(a) && owner[lists[b][j]] == At(b);
    }
  }

  /** Placing the items of xs at a location. */
  function Placed(owner: seq<Place>, xs: seq<nat>, place: Place): (r: seq<Place>)
    ensures |r| == |owner|
    ensures forall x :: 0 <= x < |owner| ==> r[x] == if x in xs then place else owner[x]
  {
    seq(|owner|, x requires 0 <= x < |owner| => if x in xs then place else owner[x])
  }

  // ----- what each step keeps -----

  function MoveLists(lists: Lists, a: Loc, b: Loc, n: nat): Lists
    requires a in lists && b in lists && n <= |lists[b]|
  {
    lists[a := lists[a] + lists[b][..n]][b := lists[b][n..]]
  }

  lemma {:induction false} ListedMove(lists: Lists, owner: seq<Place>, a: Loc, b: Loc, n: nat, loc: Loc, k: nat)
    requires Owned(lists, owner) && a in lists && b in lists && a != b && n <= |lists[b]|
    requires loc in lists && k < |MoveLists(lists, a, b, n)[loc]|
    ensures MoveLists(lists, a, b, n)[loc][k] < |owner|
    ensures Placed(owner, lists[b][..n], At(a))[MoveLists(lists, a, b, n)[loc][k]] == At(loc)
  {
    var xs, ys := lists[a], lists[b];
    assert InRange(xs, |owner|) && InRange(ys, |owner|) && InRange(lists[loc], |owner|);
    if loc == b {
      var x := ys[n + k];
      assert owner[x] == At(b);
      assert x !in ys[..n] by { assert Distinct(ys); }
    } else if loc == a && k >= |xs| {
      assert (xs + ys[..n])[k] == ys[..n][k - |xs|];
    } else {
      var x := lists[loc][k];
      assert owner[x] == At(loc);
      assert x !in ys[..n] by { Separate(lists, owner, loc, b); }
    }
  }

  lemma {:induction false} FoundMove(lists: Lists, owner: seq<Place>, a: Loc, b: Loc, n: nat)
    requires Owned(lists, owner) && a in lists && b in lists && a != b && n <= |lists[b]|
    ensures FoundThere(MoveLists(lists, a, b, n), Placed(owner, lists[b][..n], At(a)))
  {
    var xs, ys := lists[a], lists[b];
    var lists', owner' := MoveLists(lists, a, b, n), Placed(owner, ys[..n], At(a));
    forall x | 0 <= x < |owner'| && owner'[x].At? ensures owner'[x].loc in lists' && x in lists'[owner'[x].loc] {
      if x in ys[..n] {
        var k :| 0 <= k < n && ys[..n][k] == x;
        assert lists'[a][|xs| + k] == x;
      } else if owner[x] == At(b) {
        assert ys == ys[..n] + ys[n..];
      } else if owner[x] == At(a) {
        var k :| 0 <= k < |xs| && xs[k] == x;
        assert lists'[a][k] == x;
      }
    }
  }

  lemma {:induction false} SimpleMove(lists: Lists, owner: seq<Place>, a: Loc, b: Loc, n: nat)
    requires Owned(lists, owner) && a in lists && b in lists && a != b && n <= |lists[b]|
    ensures Simple(MoveLists(lists, a, b, n), |owner|)
  {
    Separate(lists, owner, a, b);
    assert Distinct(lists[a]) && InRange(lists[a], |owner|) && Distinct(lists[b]) && InRange(lists[b], |owner|);
  }

  lemma {:induction false} OwnedMove(lists: Lists, owner: seq<Place>, a: Loc, b: Loc, n: nat)
    requires Owned(lists, owner) && a in lists && b in lists && a != b && n <= |lists[b]|
    ensures Owned(MoveLists(lists, a, b, n), Placed(owner, lists[b][..n], At(a)))
  {
    hide MoveLists, Placed;
    SimpleMove(lists, owner, a, b, n);
    FoundMove(lists, owner, a, b, n);
    var lists', owner' := MoveLists(lists, a, b, n), Placed(owner, lists[b][..n], At(a));
    assert lists'.Keys == lists.Keys by { MoveKeys(lists, a, b, n); }
    forall loc, k | loc in lists' && 0 <= k < |lists'[loc]| ensures owner'[lists'[loc][k]] == At(loc) {
      ListedMove(lists, owner, a, b, n, loc, k);
    }
  }

  lemma {:induction false} MoveKeys(lists: Lists, a: Loc, b: Loc, n: nat)
    requires a in lists && b in lists && n <= |lists[b]|
    ensures MoveLists(lists, a, b, n).Keys == lists.Keys
  {
  }

  /** Lists other than a and b see none of the changed links. */
  lemma {:induction false} OthersMove(rec: map<Loc, Qid>, lists: Lists, nx: seq<nat>, ls: seq<nat>,
                                      owner: seq<Place>, a: Loc, b: Loc, n: nat, loc: Loc)
    requires Space(rec, lists, nx, ls, owner) && a in lists && b in lists && loc in lists && loc != a && loc != b
    requires 0 < n <= |lists[b]|
    ensures lists[b][0] < |nx| && lists[b][n - 1] < |nx| && (rec[a].head != NONE ==> rec[a].head < |nx|)
    ensures var nx', ls' := MovedNext(nx, rec[a], lists[b][0], lists[b][n - 1]), ls[lists[b][0] := rec[a].head];
            && Chain(rec[loc], lists[loc], nx', ls')
            && (!loc.Locked? && lists[loc] != [] ==> ls'[lists[loc][0]] == NONE)
  {
    var xs, ys, to := lists[a], lists[b], rec[a];
    Separate(lists, owner, loc, a);
    Separate(lists, owner, loc, b);
    assert Chain(to, xs, nx, ls) && Chain(rec[b], ys, nx, ls);
    assert xs != [] ==> to.head == xs[|xs| - 1];
    var nx', ls' := MovedNext(nx, to, ys[0], ys[n - 1]), ls[ys[0] := to.head];
    ChainFrame(rec[loc], lists[loc], nx, ls, nx', ls');
  }

  /** The first n items of list b go to the head of list a: every list stays a chain, every item has one owner. */
  lemma {:induction false} MoveSpace(rec: map<Loc, Qid>, lists: Lists, nx: seq<nat>, ls: seq<nat>,
                                     owner: seq<Place>, a: Loc, b: Loc, n: nat)
    requires Space(rec, lists, nx, ls, owner) && a in lists && b in lists && a != b
    requires 0 < n <= |lists[b]| && (b.Locked? || n == |lists[b]|)
    ensures var ys, to := lists[b], rec[a];
            && ys[0] < |nx| && ys[n - 1] < |nx| && (to.head != NONE ==> to.head < |nx|) && n <= rec[b].size
            && Space(rec[a := MovedTo(to, ys[0], ys[n - 1], n)][b := MovedFrom(rec[b], nx[ys[n - 1]], n)],
                     MoveLists(lists, a, b, n),
                     MovedNext(nx, to, ys[0], ys[n - 1]), ls[ys[0] := to.head], Placed(owner, ys[..n], At(a)))
  {
    var xs, ys, to := lists[a], lists[b], rec[a];
    Separate(lists, owner, a, b);
    OwnedMove(lists, owner, a, b, n);
    assert Chain(to, xs, nx, ls) && Chain(rec[b], ys, nx, ls) && Distinct(xs) && Distinct(ys);
    MoveTo(nx, ls, to, xs, rec[b], ys, n);
    MoveFrom(nx, ls, to, xs, rec[b], ys, n);
    LinkedMove(rec, lists, nx, ls, owner, a, b, n);
  }

  lemma {:induction false} LinkedMove(rec: map<Loc, Qid>, lists: Lists, nx: seq<nat>, ls: seq<nat>,
                                      owner: seq<Place>, a: Loc, b: Loc, n: nat)
    requires Space(rec, lists, nx, ls, owner) && a in lists && b in lists && a != b
    requires 0 < n <= |lists[b]| && (b.Locked? || n == |lists[b]|)
    requires Chain(rec[a], lists[a], nx, ls) && Chain(rec[b], lists[b], nx, ls) && Disjoint(lists[a], lists[b])
    requires Chain(MovedTo(rec[a], lists[b][0], lists[b][n - 1], n), lists[a] + lists[b][..n],
                   MovedNext(nx, rec[a], lists[b][0], lists[b][n - 1]), ls[lists[b][0] := rec[a].head])
    requires Chain(MovedFrom(rec[b], nx[lists[b][n - 1]], n), lists[b][n..],
                   MovedNext(nx, rec[a], lists[b][0], lists[b][n - 1]), ls[lists[b][0] := rec[a].head])
    ensures var ys, to := lists[b], rec[a];
            AllLinked(rec[a := MovedTo(to, ys[0], ys[n - 1], n)][b := MovedFrom(rec[b], nx[ys[n - 1]], n)],
                   MoveLists(lists, a, b, n), MovedNext(nx, to, ys[0], ys[n - 1]), ls[ys[0] := to.head])
  {
    hide Chain, MovedNext;
    var xs, ys, to := lists[a], lists[b], rec[a];
    BatchTail(to, xs, nx, ls);
    BatchTail(rec[b], ys, nx, ls);
    var rec', lists' := rec[a := MovedTo(to, ys[0], ys[n - 1], n)][b := MovedFrom(rec[b], nx[ys[n - 1]], n)],
                        MoveLists(lists, a, b, n);
    var nx', ls' := MovedNext(nx, to, ys[0], ys[n - 1]), ls[ys[0] := to.head];
    forall loc | loc in lists'
      ensures Chain(rec'[loc], lists'[loc], nx', ls')
      ensures !loc.Locked? && lists'[loc] != [] ==> ls'[lists'[loc][0]] == NONE
    {
      if loc != a && loc != b {
        OthersMove(rec, lists, nx, ls, owner, a, b, n, loc);
      } else if loc == a {
        assert xs != [] ==> xs[0] != ys[0] && (xs + ys[..n])[0] == xs[0];
      }
    }
  }

  lemma {:induction false} BatchTail(r: Qid, xs: seq<nat>, nx: seq<nat>, ls: seq<nat>)
    requires Chain(r, xs, nx, ls)
    ensures r.size == |xs| && InRange(xs, |ls|) && |nx| == |ls| && (xs == [] <==> r.head == NONE)
    ensures r.head != NONE ==> r.head < |nx|
    ensures xs != [] ==> r.tail == xs[0] && r.head == xs[|xs| - 1]
  {
  }

  lemma {:induction false} OwnedLink(lists: Lists, owner: seq<Place>, a: Loc, x: nat)
    requires Owned(lists, owner) && a in lists && x < |owner| && owner[x].Hand?
    ensures Owned(lists[a := lists[a] + [x]], owner[x := At(a)])
  {
    var lists', owner' := lists[a := lists[a] + [x]], owner[x := At(a)];
    forall loc, k | loc in lists && 0 <= k < |lists[loc]| ensures lists[loc][k] != x && owner'[lists[loc][k]] == At(loc) {
      assert owner[lists[loc][k]] == At(loc);
    }
    forall loc | loc in lists' ensures Distinct(lists'[loc]) && InRange(lists'[loc], |owner'|) {
      assert Distinct(lists[loc]) && InRange(lists[loc], |owner|);
    }
    forall y | 0 <= y < |owner'| && owner'[y].At? ensures owner'[y].loc in lists' && y in lists'[owner'[y].loc] {
      if y == x {
        assert lists'[a][|lists[a]|] == x;
      } else {
        assert owner[y].loc in lists && y in lists[owner[y].loc];
      }
    }
  }

  lemma {:induction false} OthersLink(rec: map<Loc, Qid>, lists: Lists, nx: seq<nat>, ls: seq<nat>,
                                      owner: seq<Place>, a: Loc, x: nat, loc: Loc)
    requires Space(rec, lists, nx, ls, owner) && a in lists && x < |owner| && owner[x].Hand?
    requires loc in lists && loc != a
    ensures rec[a].head != NONE ==> rec[a].head < |nx|
    ensures var nx', ls' := MovedNext(nx, rec[a], x, x), ls[x := rec[a].head];
            && Chain(rec[loc], lists[loc], nx', ls')
            && (!loc.Locked? && lists[loc] != [] ==> ls'[lists[loc][0]] == NONE)
  {
    assert Chain(rec[a], lists[a], nx, ls);
    BatchTail(rec[a], lists[a], nx, ls);
    Separate(lists, owner, loc, a);
    forall k | 0 <= k < |lists[loc]| ensures lists[loc][k] != x { assert owner[lists[loc][k]] == At(loc); }
    ChainFrame(rec[loc], lists[loc], nx, ls, MovedNext(nx, rec[a], x, x), ls[x := rec[a].head]);
  }

  lemma {:induction false} ChainLink(r: Qid, xs: seq<nat>, nx: seq<nat>, ls: seq<nat>, x: nat)
    requires Chain(r, xs, nx, ls) && Distinct(xs) && x !in xs && x < |nx|
    ensures r.head != NONE ==> r.head < |nx|
    ensures Chain(MovedTo(r, x, x, 1), xs + [x], MovedNext(nx, r, x, x), ls[x := r.head])
  {
    BatchTail(r, xs, nx, ls);
    var nx1 := nx[x := NONE];
    ChainFrame(r, xs, nx, ls, nx1, ls);
    MoveTo(nx1, ls, r, xs, Qid(x, x, 1), [x], 1);
    assert [x][..1] == [x];
    assert MovedNext(nx1, r, x, x) == MovedNext(nx, r, x, x);
  }

  /** An item in hand goes to the head of a batch. */
  lemma {:induction false} LinkSpace(rec: map<Loc, Qid>, lists: Lists, nx: seq<nat>, ls: seq<nat>,
                                     owner: seq<Place>, a: Loc, x: nat)
    requires Space(rec, lists, nx, ls, owner) && a in lists && x < |owner| && owner[x].Hand?
    ensures rec[a].head != NONE ==> rec[a].head < |nx|
    ensures Space(rec[a := MovedTo(rec[a], x, x, 1)], lists[a := lists[a] + [x]],
                  MovedNext(nx, rec[a], x, x), ls[x := rec[a].head], owner[x := At(a)])
  {
    hide Chain, MovedNext, Owned;
    NotListed(lists, owner, a, x);
    BatchTail(rec[a], lists[a], nx, ls);
    ChainLink(rec[a], lists[a], nx, ls, x);
    OwnedLink(lists, owner, a, x);
    forall loc | loc in lists && loc != a
      ensures Chain(rec[loc], lists[loc], MovedNext(nx, rec[a], x, x), ls[x := rec[a].head])
      ensures !loc.Locked? && lists[loc] != [] ==>
                lists[loc][0] < |ls| && ls[x := rec[a].head][lists[loc][0]] == NONE
    {
      OthersLink(rec, lists, nx, ls, owner, a, x, loc);
      BatchTail(rec[loc], lists[loc], nx, ls);
    }
    assert lists[a] != [] ==> (lists[a] + [x])[0] == lists[a][0] != x;
  }

  lemma {:induction false} NotListed(lists: Lists, owner: seq<Place>, a: Loc, x: nat)
    requires Owned(lists, owner) && a in lists && x < |owner| && owner[x].Hand?
    ensures x !in lists[a] && Distinct(lists[a])
  {
    forall k | 0 <= k < |lists[a]| ensures lists[a][k] != x { assert owner[lists[a][k]] == At(a); }
  }

  lemma {:induction false} OwnedTake(lists: Lists, owner: seq<Place>, b: Loc, p: nat)
    requires Owned(lists, owner) && b in lists && lists[b] != []
    ensures Owned(lists[b := lists[b][1..]], owner[lists[b][0] := Hand(p)])
  {
    var ys := lists[b];
    var lists', owner' := lists[b := ys[1..]], owner[ys[0] := Hand(p)];
    forall loc | loc in lists' ensures Distinct(lists'[loc]) && InRange(lists'[loc], |owner'|) {
      assert Distinct(lists[loc]) && InRange(lists[loc], |owner|);
    }
    forall loc, k | loc in lists' && 0 <= k < |lists'[loc]| ensures owner'[lists'[loc][k]] == At(loc) {
      if loc == b {
        assert lists'[b][k] == ys[k + 1] && owner[ys[k + 1]] == At(b) && ys[0] != ys[k + 1];
      } else {
        Separate(lists, owner, loc, b);
        assert owner[lists[loc][k]] == At(loc);
      }
    }
    forall y | 0 <= y < |owner'| && owner'[y].At? ensures owner'[y].loc in lists' && y in lists'[owner'[y].loc] {
      assert owner[y].loc in lists && y in lists[owner[y].loc];
      if owner[y].loc == b {
        var k :| 0 <= k < |ys| && ys[k] == y;
        assert ys[1..][k - 1] == y;
      }
    }
  }

  /** The tail of a batch goes into a process's hand. */
  lemma {:induction false} TakeSpace(rec: map<Loc, Qid>, lists: Lists, nx: seq<nat>, ls: seq<nat>,
                                     owner: seq<Place>, b: Loc, p: nat)
    requires Space(rec, lists, nx, ls, owner) && b in lists && lists[b] != []
    ensures var x := rec[b].tail;
            && x == lists[b][0] && x < |nx| && rec[b].size > 0 && (nx[x] != NONE ==> nx[x] < |ls|)
            && Space(rec[b := TakenFrom(rec[b], nx[x])], lists[b := lists[b][1..]],
                     nx, TakenNext(ls, nx[x]), owner[x := Hand(p)])
  {
    var ys := lists[b];
    assert Chain(rec[b], ys, nx, ls) && Distinct(ys);
    TakeTail(nx, ls, rec[b], ys);
    var ls' := TakenNext(ls, nx[ys[0]]);
    OwnedTake(lists, owner, b, p);
    forall loc | loc in lists && loc != b
      ensures Chain(rec[loc], lists[loc], nx, ls')
      ensures !loc.Locked? && lists[loc] != [] ==> ls'[lists[loc][0]] == NONE
    {
      Separate(lists, owner, loc, b);
      ChainFrame(rec[loc], lists[loc], nx, ls, nx, ls');
    }
  }
}
