/**
 * The eager fork of lib/fork.c (dup_or_share, fork_v0), which copies writable pages and shares the
 * others, against the copy of a whole view and against copy-on-write fork.
 */
module ForkV0 {
  import opened Words
  import opened Vm
  import opened VmInv
  import opened Teardowns
  import opened Syscalls
  import opened CowFork

  const UTEMP := 1024   // page of UTEMP

  predicate Io(pte: Word) { pte.fl & PTE_IO != 0 }

  // dup_or_share copies writable pages, but not those of devices.
  predicate Copied(pte: Word) { Writable(pte) && !Io(pte) }

  // perm in dup_or_share, after its filters.
  function FilteredPerm(pte: Word): Word {
    var perm := (7 & (pte.fl & PTE_W)) & PTE_SYSCALL;
    Word(0, if Io(pte) then perm | PTE_IO else perm)
  }

  lemma FilteredFlags(pte: Word)
    ensures Writable(FilteredPerm(pte)) == Writable(pte) && FilteredPerm(pte).pn == 0
    ensures Copied(pte) ==> UserPerm(FilteredPerm(pte)) == PUW
    ensures MayWrite(UserPerm(FilteredPerm(pte))) == Writable(UserPerm(FilteredPerm(pte))) == Writable(pte)
  {
  }

  // The copying half of dup_or_share. The page goes through UTEMP of the parent, whatever is there.
  function DupCopy(v: VM, p: nat, c: nat, n: nat): (w: Outcome<VM>)
    requires Good(v) && p in v.dirs && c in v.dirs && p != c && Loc(p, n) in v.ptes && n < UVPN
    requires Copied(v.ptes[Loc(p, n)])
  {
    var perm := FilteredPerm(v.ptes[Loc(p, n)]);
    FilteredFlags(v.ptes[Loc(p, n)]);
    AllocFiltered(v, c, n, perm);
    var (v1, r1) := SysPageAlloc(v, c, n * PGSIZE, perm);
    if r1 < 0 then Stop
    else
      NewPageCount(v, v1, Loc(c, n), v.free[0]);
      MapAt(v1, Loc(c, n), Loc(p, UTEMP), perm);
      var (v2, r2) := SysPageMap(v1, c, n * PGSIZE, p, UTEMP * PGSIZE, perm);
      if r2 < 0 then Stop
      else
        CopyGood(v2, Loc(p, UTEMP), Loc(p, n));
        var v3 := CopyPage(v2, Loc(p, UTEMP), Loc(p, n));
        GoodRange(v3);
        Ok(SysPageUnmap(v3, p, UTEMP * PGSIZE).0)
  }

  lemma AllocFiltered(v: VM, d: nat, n: nat, perm: Word)
    requires Good(v) && d in v.dirs && n < UVPN && UserPerm(perm) == PUW
    ensures InRange(v) && SysPageAlloc(v, d, n * PGSIZE, perm) == SysPageAlloc(v, d, n * PGSIZE, PUW)
    ensures var (w, r) := SysPageAlloc(v, d, n * PGSIZE, perm);
      && Good(w) && w.dirs == v.dirs && SameData(v, w) && (r == 0 || r == E_NO_MEM)
      && (r == 0 ==> v.free != [] && v.free[0] !in v.data && v.free[0] in w.data && w.data[v.free[0]] == ZeroPage()
                     && w.ptes == v.ptes[Loc(d, n) := Word(v.free[0], 7)])
  {
    hide InvX, Small, EnvPageAlloc, SameData, ZeroPage;
    assert UserPerm(PUW) == PUW;
    AllocAt(v, d, n);
  }

  lemma NewPageCount(v: VM, w: VM, k: Loc, p: nat)
    requires Good(v) && Good(w) && p !in v.data && p in w.data && w.ptes == v.ptes[k := Word(p, 7)]
    ensures w.ptes[k].pn < |w.ref| && w.ref[w.ptes[k].pn] < 65535
  {
    GoodRange(v);
    FreshRef(v, w, k, p);
  }

  // dup_or_share of a present page; Stop is a panic, Wrap a count that would wrap around.
  function DupOrShare(v: VM, p: nat, c: nat, n: nat): (w: Outcome<VM>)
    requires Good(v) && p in v.dirs && c in v.dirs && p != c && Loc(p, n) in v.ptes && n < UVPN
  {
    var pte := v.ptes[Loc(p, n)];
    SrcFacts(v, Loc(p, n));
    if !Writable(pte) || Io(pte) then
      if v.ref[pte.pn] >= 65535 then Wrap
      else
        GoodRange(v);
        var (v1, r1) := SysPageMap(v, p, n * PGSIZE, c, n * PGSIZE, FilteredPerm(pte));
        if r1 < 0 then Stop else Ok(v1)
    else DupCopy(v, p, c, n)
  }

  // ---- What one page does to the views ---------------------------------------------------

  // A page as fork_v0 hands it on: writable only if the parent could write to it just then.
  function HandedOn(v: VM, k: Loc): Cell
    requires Mapped(v) && k in v.ptes
  {
    Cell(v.data[v.ptes[k].pn], Writable(v.ptes[k]))
  }

  // A copied page is the parent's, but a copy of UTEMP itself is of the new page just mapped there.
  function Passed(v: VM, p: nat, n: nat): Cell
    requires Mapped(v) && Loc(p, n) in v.ptes
  {
    if n == UTEMP && Copied(v.ptes[Loc(p, n)]) then Cell(ZeroPage(), true) else HandedOn(v, Loc(p, n))
  }

  // What the copy of page n takes from the parent.
  function Gone(v: VM, p: nat, n: nat): set<Loc>
    requires Loc(p, n) in v.ptes
  {
    if Copied(v.ptes[Loc(p, n)]) then {Loc(p, UTEMP)} else {}
  }

  // One entry of the child changed and shows the page; the parent loses UTEMP to a copy.
  ghost predicate Turned(v: VM, w: VM, p: nat, c: nat, n: nat) {
    && Good(w) && Mapped(v) && Mapped(w) && w.dirs == v.dirs && SameData(v, w)
    && Loc(p, n) in v.ptes && Loc(c, n) in w.ptes && p != c && n < UVPN
    && w.ptes == (v.ptes - Gone(v, p, n))[Loc(c, n) := w.ptes[Loc(c, n)]]
    && CellOf(w, Loc(c, n)) == Passed(v, p, n)
    && (if Copied(v.ptes[Loc(p, n)]) then w.ptes[Loc(c, n)].pn !in v.data
        else w.ptes[Loc(c, n)].pn == v.ptes[Loc(p, n)].pn && Writable(w.ptes[Loc(c, n)]) == Writable(v.ptes[Loc(p, n)]))
  }

  lemma ShareEffect(v: VM, p: nat, c: nat, n: nat)
    requires Good(v) && p in v.dirs && c in v.dirs && p != c && Loc(p, n) in v.ptes && n < UVPN
    requires !Copied(v.ptes[Loc(p, n)]) && DupOrShare(v, p, c, n).Ok?
    ensures Turned(v, DupOrShare(v, p, c, n).value, p, c, n)
  {
    var src, dst := Loc(p, n), Loc(c, n);
    var pte := v.ptes[src];
    FilteredFlags(pte);
    SrcFacts(v, src);
    hide InvX, Small, Content, SysPageMap, CanWalk, FilteredPerm, Writable, Io, Turned, Cow;
    MapAt(v, src, dst, FilteredPerm(pte));
    SharedTurn(v, DupOrShare(v, p, c, n).value, p, c, n, UserPerm(FilteredPerm(pte)));
  }

  lemma SharedTurn(v: VM, w: VM, p: nat, c: nat, n: nat, perm: Word)
    requires Good(v) && Good(w) && Content(v, w) && w.dirs == v.dirs && Loc(p, n) in v.ptes && p != c && n < UVPN
    requires w.ptes == v.ptes[Loc(c, n) := Word(v.ptes[Loc(p, n)].pn, perm.fl)]
    requires !Copied(v.ptes[Loc(p, n)]) && MayWrite(perm) == Writable(perm) == Writable(v.ptes[Loc(p, n)])
    ensures Turned(v, w, p, c, n)
  {
    hide InvX, Small, Content;
    GoodRange(v);
    GoodRange(w);
    ContentSame(v, w);
    assert v.ptes - {} == v.ptes;
    assert w.ptes[Loc(c, n)] == Word(v.ptes[Loc(p, n)].pn, perm.fl);
    assert MayWrite(w.ptes[Loc(c, n)]) == MayWrite(perm);
  }

  lemma CopySteps(v: VM, p: nat, c: nat, n: nat) returns (v1: VM, v2: VM)
    requires Good(v) && p in v.dirs && c in v.dirs && p != c && Loc(p, n) in v.ptes && n < UVPN
    requires Copied(v.ptes[Loc(p, n)]) && DupCopy(v, p, c, n).Ok?
    ensures v.free != [] && Good(v1) && Good(v2) && Mapped(v2) && v1.dirs == v2.dirs == v.dirs
    ensures v.free[0] !in v.data && v.free[0] in v2.data && v2.data[v.free[0]] == ZeroPage()
    ensures SameData(v, v1) && SameData(v1, v2)
    ensures v1.ptes == v.ptes[Loc(c, n) := Word(v.free[0], 7)]
    ensures v2.ptes == v1.ptes[Loc(p, UTEMP) := Word(v.free[0], 7)]
    ensures forall f :: f in v2.data ==> f in v1.data
    ensures InRange(CopyPage(v2, Loc(p, UTEMP), Loc(p, n)))
    ensures DupCopy(v, p, c, n).value == SysPageUnmap(CopyPage(v2, Loc(p, UTEMP), Loc(p, n)), p, UTEMP * PGSIZE).0
  {
    hide InvX, Small, Content, SysPageMap, SysPageAlloc, CanWalk, FilteredPerm, CopyPage, SysPageUnmap, Io, ZeroPage;
    var perm := FilteredPerm(v.ptes[Loc(p, n)]);
    FilteredFlags(v.ptes[Loc(p, n)]);
    AllocFiltered(v, c, n, perm);
    v1 := SysPageAlloc(v, c, n * PGSIZE, perm).0;
    NewPageCount(v, v1, Loc(c, n), v.free[0]);
    GoodRange(v1);
    MapAt(v1, Loc(c, n), Loc(p, UTEMP), perm);
    v2 := SysPageMap(v1, c, n * PGSIZE, p, UTEMP * PGSIZE, perm).0;
    ContentSame(v1, v2);
    GoodRange(v2);
    CopyGood(v2, Loc(p, UTEMP), Loc(p, n));
    GoodRange(CopyPage(v2, Loc(p, UTEMP), Loc(p, n)));
  }

  // The copy through UTEMP leaves the child with a private writable frame.
  lemma CopiedPage(v: VM, v1: VM, v2: VM, p: nat, c: nat, n: nat, f: nat)
    requires Good(v) && Loc(p, n) in v.ptes && p != c && c in v.dirs && n < UVPN && Copied(v.ptes[Loc(p, n)])
    requires Good(v1) && Good(v2) && Mapped(v2) && v1.dirs == v2.dirs == v.dirs
    requires f !in v.data && f in v2.data && v2.data[f] == ZeroPage() && SameData(v, v1) && SameData(v1, v2)
    requires v1.ptes == v.ptes[Loc(c, n) := Word(f, 7)] && v2.ptes == v1.ptes[Loc(p, UTEMP) := Word(f, 7)]
    requires forall g :: g in v2.data ==> g in v1.data
    ensures InRange(CopyPage(v2, Loc(p, UTEMP), Loc(p, n)))
    ensures Turned(v, Remove(CopyPage(v2, Loc(p, UTEMP), Loc(p, n)), Loc(p, UTEMP)), p, c, n)
  {
    hide InvX, Small, CopyPage, ZeroPage, Io;
    var src, dst, tmp := Loc(p, n), Loc(c, n), Loc(p, UTEMP);
    SrcFacts(v, src);
    CopyGood(v2, tmp, src);
    CopyEffect(v2, tmp, src);
    var v3 := CopyPage(v2, tmp, src);
    GoodRange(v3);
    UnmapTemp(v3, tmp);
    RemovePtes(v3, tmp);
    var w := Remove(v3, tmp);
    assert w.ptes == (v.ptes - {tmp})[dst := Word(f, 7)];
    SrcFacts(w, dst);
    SrcFacts(v1, src);
    SrcFacts(v2, src);
    assert w.data[f] == v3.data[f] == v2.data[v2.ptes[src].pn];
    if n != UTEMP {
      assert v2.data[v2.ptes[src].pn] == v1.data[v.ptes[src].pn] == v.data[v.ptes[src].pn];
    }
    CopyKeeps(v, v1, v2, v3, f);
    assert CellOf(w, dst) == Passed(v, p, n);
    hide CellOf, Passed;
  }

  // Only the new frame is written to.
  lemma CopyKeeps(v: VM, v1: VM, v2: VM, v3: VM, f: nat)
    requires f !in v.data && SameData(v, v1) && SameData(v1, v2) && v3.data.Keys == v2.data.Keys
    requires forall g :: g in v2.data ==> g in v1.data
    requires forall g :: g in v2.data && g != f ==> v3.data[g] == v2.data[g]
    ensures SameData(v, v3)
  {
  }

  lemma RemovePtes(v: VM, k: Loc)
    requires Good(v)
    ensures InRange(v) && Remove(v, k).ptes == v.ptes - {k} && Remove(v, k).dirs == v.dirs
  {
    GoodRange(v);
  }

  // dup_or_share hands the page to the child; nothing else changes but the parent's UTEMP.
  lemma DupOrShareEffect(v: VM, p: nat, c: nat, n: nat)
    requires Good(v) && p in v.dirs && c in v.dirs && p != c && Loc(p, n) in v.ptes && n < UVPN
    requires DupOrShare(v, p, c, n).Ok?
    ensures Turned(v, DupOrShare(v, p, c, n).value, p, c, n)
  {
    hide InvX, Small, Turned, DupCopy, Io, Writable;
    if Copied(v.ptes[Loc(p, n)]) {
      var v1, v2 := CopySteps(v, p, c, n);
      VaOk(UTEMP);
      CopiedPage(v, v1, v2, p, c, n, v.free[0]);
    } else {
      ShareEffect(v, p, c, n);
    }
  }

  // The space of d after one turn.
  function SpaceTurned(v: VM, p: nat, c: nat, n: nat, d: nat): Space
    requires Mapped(v) && Loc(p, n) in v.ptes
  {
    if d == c then (if n == XSTK then SpaceOf(v, c) else SpaceOf(v, c)[n := Passed(v, p, n)])
    else if d == p && Copied(v.ptes[Loc(p, n)]) then SpaceOf(v, p) - {UTEMP}
    else SpaceOf(v, d)
  }

  lemma TurnCells(v: VM, w: VM, p: nat, c: nat, n: nat)
    requires Turned(v, w, p, c, n)
    ensures forall k :: k in w.ptes && k != Loc(c, n) ==> k in v.ptes && w.ptes[k] == v.ptes[k] && CellOf(w, k) == CellOf(v, k)
    ensures forall k :: k in w.ptes <==> k == Loc(c, n) || (k in v.ptes && k !in Gone(v, p, n))
  {
    hide CellOf, Passed, InvX, Small, Gone;
    forall k | k in w.ptes && k != Loc(c, n)
      ensures k in v.ptes && w.ptes[k] == v.ptes[k] && CellOf(w, k) == CellOf(v, k)
    {
      SameCell(v, w, k);
    }
  }

  lemma SameCell(v: VM, w: VM, k: Loc)
    requires Mapped(v) && Mapped(w) && SameData(v, w) && k in v.ptes && k in w.ptes && w.ptes[k] == v.ptes[k]
    ensures CellOf(w, k) == CellOf(v, k)
  {
  }

  lemma TurnSpace(v: VM, w: VM, p: nat, c: nat, n: nat, d: nat)
    requires Turned(v, w, p, c, n)
    ensures SpaceOf(w, d) == SpaceTurned(v, p, c, n, d)
  {
    hide CellOf, Passed, InvX, Small, Copied, SameData;
    TurnCells(v, w, p, c, n);
    assert CellOf(w, Loc(c, n)) == Passed(v, p, n);
    forall i ensures i in SpaceOf(w, d) <==> i in SpaceTurned(v, p, c, n, d) {
    }
  }

  // ---- The loop --------------------------------------------------------------------------

  // The loop of fork_v0 from page n on; pages that are not present are skipped.
  function ZeroPages(v: VM, p: nat, c: nat, n: nat): (w: Outcome<VM>)
    requires Good(v) && p in v.dirs && c in v.dirs && p != c && n <= UVPN
    decreases UVPN - n
  {
    if n == UVPN then Ok(v)
    else if Loc(p, n) !in v.ptes then ZeroPages(v, p, c, n + 1)
    else
      var w := DupOrShare(v, p, c, n);
      if !w.Ok? then w
      else
        DupOrShareEffect(v, p, c, n);
        ZeroPages(w.value, p, c, n + 1)
  }

  // The loop copies a page of [a, b).
  ghost predicate Copies(v: VM, p: nat, a: nat, b: nat) {
    exists i :: a <= i < b && Loc(p, i) in v.ptes && Copied(v.ptes[Loc(p, i)])
  }

  // The loop gets to page i while it is still there.
  ghost predicate Reached(v: VM, p: nat, n: nat, i: nat) {
    n <= i < UVPN && Loc(p, i) in v.ptes && !(i == UTEMP && Copies(v, p, n, UTEMP))
  }

  // What the child gets from the loop from page n on.
  ghost function Received(v: VM, p: nat, n: nat): Space
    requires Mapped(v)
  {
    map i | 0 <= i < UVPN && i != XSTK && Reached(v, p, n, i) :: Passed(v, p, i)
  }

  // What the loop leaves to the parent.
  ghost function Left(v: VM, p: nat, n: nat): Space
    requires Mapped(v)
  {
    if Copies(v, p, n, UVPN) then SpaceOf(v, p) - {UTEMP} else SpaceOf(v, p)
  }

  ghost function SpaceAfter(v: VM, p: nat, c: nat, n: nat, d: nat): Space
    requires Mapped(v)
  {
    if d == c then SpaceOf(v, c) + Received(v, p, n) else if d == p then Left(v, p, n) else SpaceOf(v, d)
  }

  lemma ReachedTurn(v: VM, w: VM, p: nat, c: nat, n: nat, i: nat)
    requires Turned(v, w, p, c, n) && i > n
    ensures Reached(w, p, n + 1, i) <==> Reached(v, p, n, i)
    ensures Reached(w, p, n + 1, i) ==> Passed(w, p, i) == Passed(v, p, i)
  {
    TurnCells(v, w, p, c, n);
    hide InvX, Small, Io, Writable, ZeroPage;
    assert forall j :: Loc(p, j) in w.ptes ==> w.ptes[Loc(p, j)] == v.ptes[Loc(p, j)];
    if Copied(v.ptes[Loc(p, n)]) {
    } else {
      assert forall j :: Loc(p, j) in w.ptes <==> Loc(p, j) in v.ptes;
      assert Copies(w, p, n + 1, UTEMP) <==> Copies(v, p, n, UTEMP);
    }
  }

  lemma ReceivedTurn(v: VM, w: VM, p: nat, c: nat, n: nat)
    requires Turned(v, w, p, c, n)
    ensures Received(v, p, n) == if n == XSTK then Received(w, p, n + 1)
                                 else map[n := Passed(v, p, n)] + Received(w, p, n + 1)
  {
    hide InvX, Small, Passed, Copies, CellOf;
    forall i | i > n
      ensures Reached(w, p, n + 1, i) <==> Reached(v, p, n, i)
      ensures Reached(w, p, n + 1, i) ==> Passed(w, p, i) == Passed(v, p, i)
    {
      ReachedTurn(v, w, p, c, n, i);
    }
    ReachedFirst(v, p, n);
  }

  lemma ReachedFirst(v: VM, p: nat, n: nat)
    requires n < UVPN && Loc(p, n) in v.ptes
    ensures Reached(v, p, n, n)
  {
  }

  lemma LeftTurn(v: VM, w: VM, p: nat, c: nat, n: nat)
    requires Turned(v, w, p, c, n)
    ensures Left(w, p, n + 1) == Left(v, p, n)
  {
    hide InvX, Small, Io, Writable, ZeroPage, CellOf, SpaceOf;
    TurnCells(v, w, p, c, n);
    TurnSpace(v, w, p, c, n, p);
    assert forall j :: Loc(p, j) in w.ptes ==> w.ptes[Loc(p, j)] == v.ptes[Loc(p, j)];
    if Copied(v.ptes[Loc(p, n)]) {
      assert Copies(v, p, n, UVPN);
      assert SpaceOf(v, p) - {UTEMP} - {UTEMP} == SpaceOf(v, p) - {UTEMP};
    } else {
      assert forall j :: Loc(p, j) in w.ptes <==> Loc(p, j) in v.ptes;
      assert Copies(w, p, n + 1, UVPN) <==> Copies(v, p, n, UVPN);
    }
  }

  lemma AfterTurn(v: VM, w: VM, p: nat, c: nat, n: nat, d: nat)
    requires Turned(v, w, p, c, n)
    ensures SpaceAfter(w, p, c, n + 1, d) == SpaceAfter(v, p, c, n, d)
  {
    TurnSpace(v, w, p, c, n, d);
    LeftTurn(v, w, p, c, n);
    ReceivedTurn(v, w, p, c, n);
    hide InvX, Small, Passed, Copies, CellOf, SpaceOf, Received, Left;
    if d == c && n != XSTK {
      PutFirst(SpaceOf(v, c), n, Passed(v, p, n), Received(w, p, n + 1));
    }
  }

  lemma PutFirst(a: Space, n: nat, x: Cell, b: Space)
    ensures a[n := x] + b == a + (map[n := x] + b)
  {
  }

  lemma AfterSkip(v: VM, p: nat, c: nat, n: nat, d: nat)
    requires Mapped(v) && Loc(p, n) !in v.ptes
    ensures SpaceAfter(v, p, c, n + 1, d) == SpaceAfter(v, p, c, n, d)
  {
    hide SpaceOf, CellOf, Passed, Copied;
    assert Copies(v, p, n + 1, UTEMP) <==> Copies(v, p, n, UTEMP);
    assert Copies(v, p, n + 1, UVPN) <==> Copies(v, p, n, UVPN);
    assert forall i :: Reached(v, p, n + 1, i) <==> Reached(v, p, n, i);
  }

  lemma AfterEnd(v: VM, p: nat, c: nat, d: nat)
    requires Mapped(v)
    ensures SpaceAfter(v, p, c, UVPN, d) == SpaceOf(v, d)
  {
    hide SpaceOf;
    assert Received(v, p, UVPN) == map[];
    assert SpaceOf(v, c) + map[] == SpaceOf(v, c);
  }

  // The loop gives the child the pages it gets to and takes UTEMP from the parent if it copies any;
  // no other space changes.
  lemma {:induction false} ZeroPagesEffect(v: VM, p: nat, c: nat, n: nat, d: nat)
    requires Good(v) && p in v.dirs && c in v.dirs && p != c && n <= UVPN && ZeroPages(v, p, c, n).Ok?
    ensures var w := ZeroPages(v, p, c, n).value;
      Mapped(v) && Good(w) && Mapped(w) && w.dirs == v.dirs && SpaceOf(w, d) == SpaceAfter(v, p, c, n, d)
    decreases UVPN - n
  {
    hide InvX, Small, Turned, SpaceOf, DupOrShare, SpaceAfter;
    GoodRange(v);
    if n == UVPN {
      AfterEnd(v, p, c, d);
    } else if Loc(p, n) !in v.ptes {
      ZeroPagesEffect(v, p, c, n + 1, d);
      AfterSkip(v, p, c, n, d);
    } else {
      var u := DupOrShare(v, p, c, n).value;
      DupOrShareEffect(v, p, c, n);
      TurnedGood(v, u, p, c, n);
      ZeroPagesEffect(u, p, c, n + 1, d);
      AfterTurn(v, u, p, c, n, d);
    }
  }

  lemma TurnedGood(v: VM, w: VM, p: nat, c: nat, n: nat)
    requires Turned(v, w, p, c, n)
    ensures Good(w) && Mapped(w) && w.dirs == v.dirs
  {
    hide InvX, Small;
  }

  // ---- Who may write to what -------------------------------------------------------------

  // The loop shares a writable device page from page n on.
  ghost predicate SharesDevice(v: VM, p: nat, n: nat) {
    exists i :: n <= i < UVPN && Loc(p, i) in v.ptes && Writable(v.ptes[Loc(p, i)]) && Io(v.ptes[Loc(p, i)])
  }

  lemma TurnExcl(v: VM, w: VM, p: nat, c: nat, n: nat)
    requires Turned(v, w, p, c, n) && Excl(v)
    requires !(Writable(v.ptes[Loc(p, n)]) && Io(v.ptes[Loc(p, n)]))
    ensures Excl(w)
  {
    TurnCells(v, w, p, c, n);
    hide InvX, Small, Io, Writable, CellOf, Passed;
    forall k, q | k in w.ptes && q in w.ptes && k != q && w.ptes[k].pn == w.ptes[q].pn
      ensures !Writable(w.ptes[k])
    {
      if k == Loc(c, n) {
        assert q in v.ptes && w.ptes[q].pn in v.data;
      } else {
        assert k in v.ptes && w.ptes[k].pn in v.data;
      }
    }
  }

  lemma TurnDevices(v: VM, w: VM, p: nat, c: nat, n: nat)
    requires Turned(v, w, p, c, n) && !SharesDevice(v, p, n)
    ensures !SharesDevice(w, p, n + 1) && !(Writable(v.ptes[Loc(p, n)]) && Io(v.ptes[Loc(p, n)]))
  {
    TurnCells(v, w, p, c, n);
    hide InvX, Small, Io, Writable, CellOf, Passed;
    assert forall j :: Loc(p, j) in w.ptes ==> Loc(p, j) in v.ptes && w.ptes[Loc(p, j)] == v.ptes[Loc(p, j)];
  }

  // Without writable device pages no frame gets a second writer.
  lemma {:induction false} ZeroPagesExcl(v: VM, p: nat, c: nat, n: nat)
    requires Good(v) && p in v.dirs && c in v.dirs && p != c && n <= UVPN && ZeroPages(v, p, c, n).Ok?
    requires Excl(v) && !SharesDevice(v, p, n)
    ensures Excl(ZeroPages(v, p, c, n).value)
    decreases UVPN - n
  {
    hide InvX, Small, Turned, DupOrShare, Excl, Io, Writable;
    if n == UVPN {
    } else if Loc(p, n) !in v.ptes {
      ZeroPagesExcl(v, p, c, n + 1);
    } else {
      var u := DupOrShare(v, p, c, n).value;
      DupOrShareEffect(v, p, c, n);
      TurnedGood(v, u, p, c, n);
      TurnDevices(v, u, p, c, n);
      TurnExcl(v, u, p, c, n);
      ZeroPagesExcl(u, p, c, n + 1);
    }
  }

  // Entries the loop leaves alone: all but the child's from n on, and the parent's UTEMP.
  lemma {:induction false} ZeroPagesKeep(v: VM, p: nat, c: nat, n: nat, k: Loc)
    requires Good(v) && p in v.dirs && c in v.dirs && p != c && n <= UVPN && ZeroPages(v, p, c, n).Ok?
    requires k in v.ptes && (k.d == c ==> k.vpn < n) && (k == Loc(p, UTEMP) ==> !Copies(v, p, n, UVPN))
    ensures var w := ZeroPages(v, p, c, n).value; k in w.ptes && w.ptes[k] == v.ptes[k]
    decreases UVPN - n
  {
    hide InvX, Small, Turned, DupOrShare, Copies;
    if n == UVPN {
    } else if Loc(p, n) !in v.ptes {
      CopiesSkip(v, p, n);
      ZeroPagesKeep(v, p, c, n + 1, k);
    } else {
      var u := DupOrShare(v, p, c, n).value;
      DupOrShareEffect(v, p, c, n);
      TurnedGood(v, u, p, c, n);
      TurnKeeps(v, u, p, c, n, k);
      ZeroPagesKeep(u, p, c, n + 1, k);
    }
  }

  lemma CopiesSkip(v: VM, p: nat, n: nat)
    requires Loc(p, n) !in v.ptes
    ensures Copies(v, p, n + 1, UVPN) <==> Copies(v, p, n, UVPN)
  {
  }

  lemma TurnKeeps(v: VM, w: VM, p: nat, c: nat, n: nat, k: Loc)
    requires Turned(v, w, p, c, n)
    requires k in v.ptes && (k.d == c ==> k.vpn < n) && (k == Loc(p, UTEMP) ==> !Copies(v, p, n, UVPN))
    ensures k in w.ptes && w.ptes[k] == v.ptes[k]
    ensures k == Loc(p, UTEMP) ==> !Copies(w, p, n + 1, UVPN)
  {
    TurnCells(v, w, p, c, n);
    hide InvX, Small, CellOf, Passed, Copied;
    assert forall j :: Loc(p, j) in w.ptes ==> Loc(p, j) in v.ptes && w.ptes[Loc(p, j)] == v.ptes[Loc(p, j)];
    if k == Loc(p, UTEMP) {
      assert !Copied(v.ptes[Loc(p, n)]);
    }
  }

  // A device page that the loop gets to and leaves to the parent has two writers in the end.
  lemma {:induction false} ZeroPagesShares(v: VM, p: nat, c: nat, n: nat, i: nat)
    requires Good(v) && p in v.dirs && c in v.dirs && p != c && n <= i < UVPN && ZeroPages(v, p, c, n).Ok?
    requires Loc(p, i) in v.ptes && Writable(v.ptes[Loc(p, i)]) && Io(v.ptes[Loc(p, i)])
    requires i == UTEMP ==> !Copies(v, p, n, UVPN)
    ensures !Excl(ZeroPages(v, p, c, n).value)
    decreases UVPN - n
  {
    hide InvX, Small, Turned, DupOrShare, Copies, Writable, Io, Excl;
    if Loc(p, n) !in v.ptes {
      CopiesSkip(v, p, n);
      ZeroPagesShares(v, p, c, n + 1, i);
    } else {
      var u := DupOrShare(v, p, c, n).value;
      DupOrShareEffect(v, p, c, n);
      TurnedGood(v, u, p, c, n);
      TurnKeeps(v, u, p, c, n, Loc(p, i));
      if n < i {
        ZeroPagesShares(u, p, c, n + 1, i);
      } else {
        TurnShares(v, u, p, c, n);
        ZeroPagesKeep(u, p, c, n + 1, Loc(p, n));
        ZeroPagesKeep(u, p, c, n + 1, Loc(c, n));
        TwoWriters(ZeroPages(v, p, c, n).value, Loc(p, n), Loc(c, n));
      }
    }
  }

  lemma TurnShares(v: VM, w: VM, p: nat, c: nat, n: nat)
    requires Turned(v, w, p, c, n) && Io(v.ptes[Loc(p, n)])
    ensures Loc(c, n) in w.ptes && w.ptes[Loc(c, n)].pn == v.ptes[Loc(p, n)].pn
  {
    hide InvX, Small, Io, Writable;
  }

  lemma TwoWriters(v: VM, k: Loc, q: Loc)
    requires k in v.ptes && q in v.ptes && k != q && v.ptes[k].pn == v.ptes[q].pn && Writable(v.ptes[k])
    ensures !Excl(v)
  {
  }

  // ---- The whole fork --------------------------------------------------------------------

  // fork_v0: the child's directory and the state, or a panic.
  function ForkZero(v: VM, p: nat): (w: Outcome<(VM, nat)>)
    requires Ready(v) && p in v.dirs
  {
    GoodRange(v);
    var (v1, r1) := Create(v);
    if r1 < 0 then Stop
    else
      CreateView(v);
      var c := v.free[0];
      match ZeroPages(v1, p, c, 0)
      case Stop => Stop
      case Wrap => Wrap
      case Ok(v2) => Ok((v2, c))
  }

  lemma CreateSame(v: VM, p: nat)
    requires Ready(v) && v.free != []
    ensures InRange(v)
    ensures var w := Create(v).0;
      && w.ptes == v.ptes && Mapped(w) && Received(w, p, 0) == Received(v, p, 0) && Left(w, p, 0) == Left(v, p, 0)
      && SharesDevice(w, p, 0) == SharesDevice(v, p, 0) && Copies(w, p, 0, UVPN) == Copies(v, p, 0, UVPN)
  {
    hide InvX, Small, Excl;
    GoodRange(v);
    SamePtes(v);
    SameReceived(v, Create(v).0, p);
  }

  lemma SamePtes(v: VM)
    requires InRange(v) && v.free != []
    ensures Create(v).0.ptes == v.ptes && Create(v).0.data == v.data
  {
  }

  lemma SameReceived(v: VM, w: VM, p: nat)
    requires Mapped(v) && w.ptes == v.ptes && w.data == v.data
    ensures Mapped(w) && Received(w, p, 0) == Received(v, p, 0) && Left(w, p, 0) == Left(v, p, 0)
  {
    hide Copied, ZeroPage;
    assert forall i :: Reached(w, p, 0, i) <==> Reached(v, p, 0, i);
    SpaceSame(v, w, p);
    hide SpaceOf;
  }

  // After fork_v0 the child sees the parent's pages the loop got to, the parent lacks UTEMP if it
  // copied any, and nobody else sees a difference.
  lemma ForkZeroEffect(v: VM, p: nat)
    requires Ready(v) && p in v.dirs && ForkZero(v, p).Ok?
    ensures var (w, c) := ForkZero(v, p).value;
      && Good(w) && Mapped(w) && c !in v.dirs && w.dirs == v.dirs + {c}
      && View(w) == View(v)[p := Left(v, p, 0)][c := Received(v, p, 0)]
  {
    hide InvX, Small, ZeroPages, SpaceOf, Excl, Create, Received, Left;
    GoodRange(v);
    CreateSome(v);
    CreateView(v);
    CreateSame(v, p);
    var (w, c) := ForkZero(v, p).value;
    var v1 := Create(v).0;
    ZeroPagesEffect(v1, p, c, 0, c);
    forall d | d in v1.dirs ensures SpaceOf(w, d) == SpaceAfter(v1, p, c, 0, d) {
      ZeroPagesEffect(v1, p, c, 0, d);
    }
    assert map[] + Received(v, p, 0) == Received(v, p, 0);
  }

  // A page that is copy-on-write in the parent may be written by it, but not by its fork_v0 child.
  ghost predicate PendingCopy(v: VM, p: nat) {
    exists n :: 0 <= n < UVPN && n != XSTK && Loc(p, n) in v.ptes && Cow(v.ptes[Loc(p, n)]) && !Writable(v.ptes[Loc(p, n)])
  }

  // A page the parent has at UTEMP is lost to the first copy.
  ghost predicate LosesTemp(v: VM, p: nat) { Loc(p, UTEMP) in v.ptes && Copies(v, p, 0, UVPN) }

  lemma ReceivedIsSpace(v: VM, p: nat)
    requires Mapped(v) && !LosesTemp(v, p)
    ensures Received(v, p, 0) == SpaceOf(v, p) <==> !PendingCopy(v, p)
  {
    hide Io, ZeroPage;
    assert Loc(p, UTEMP) in v.ptes ==> !Copies(v, p, 0, UTEMP) && !Copied(v.ptes[Loc(p, UTEMP)]);
    forall i | 0 <= i < UVPN && i != XSTK && Loc(p, i) in v.ptes
      ensures Reached(v, p, 0, i) && Passed(v, p, i) == HandedOn(v, Loc(p, i))
    {
    }
    hide Reached, Passed, Copies;
    if PendingCopy(v, p) {
      var n :| 0 <= n < UVPN && n != XSTK && Loc(p, n) in v.ptes && Cow(v.ptes[Loc(p, n)]) && !Writable(v.ptes[Loc(p, n)]);
      assert Received(v, p, 0)[n] != SpaceOf(v, p)[n];
    } else {
      forall i | 0 <= i < UVPN && i != XSTK && Loc(p, i) in v.ptes
        ensures HandedOn(v, Loc(p, i)) == CellOf(v, Loc(p, i))
      {
      }
    }
  }

  lemma LeftIsSpace(v: VM, p: nat)
    requires Mapped(v)
    ensures Left(v, p, 0) == SpaceOf(v, p) <==> !LosesTemp(v, p)
  {
    hide CellOf, Copies;
    InSpace(v, p, UTEMP);
    if !LosesTemp(v, p) && Copies(v, p, 0, UVPN) {
      assert SpaceOf(v, p) - {UTEMP} == SpaceOf(v, p);
    }
  }

  // No frame has two writers after fork_v0 unless it shared a writable device page.
  lemma ForkZeroReady(v: VM, p: nat)
    requires Ready(v) && p in v.dirs && ForkZero(v, p).Ok? && !LosesTemp(v, p)
    ensures Excl(ForkZero(v, p).value.0) <==> !SharesDevice(v, p, 0)
  {
    hide InvX, Small, ZeroPages, Create, Received, Left, View, SpaceOf;
    GoodRange(v);
    CreateSome(v);
    CreateView(v);
    CreateSame(v, p);
    hide Excl;
    var (w, c) := ForkZero(v, p).value;
    var v1 := Create(v).0;
    if SharesDevice(v, p, 0) {
      var i :| 0 <= i < UVPN && Loc(p, i) in v.ptes && Writable(v.ptes[Loc(p, i)]) && Io(v.ptes[Loc(p, i)]);
      ZeroPagesShares(v1, p, c, 0, i);
    } else {
      ZeroPagesExcl(v1, p, c, 0);
    }
  }

  // fork_v0 gives the child a copy of the parent's view, and leaves the others theirs, exactly when
  // the parent has no copy pending from a fork of its own and nothing at UTEMP to lose. The two are
  // apart from then on, as after a copy of every page, exactly when it has no writable device page.
  lemma ForkZeroIsEager(v: VM, p: nat)
    requires Ready(v) && p in v.dirs && ForkZero(v, p).Ok?
    ensures var (w, c) := ForkZero(v, p).value;
      && Mapped(w)
      && (View(w) == View(v)[c := View(v)[p]] <==> !PendingCopy(v, p) && !LosesTemp(v, p))
      && (View(w) == View(v)[c := View(v)[p]] && Excl(w) <==>
          !PendingCopy(v, p) && !LosesTemp(v, p) && !SharesDevice(v, p, 0))
  {
    hide InvX, Small, Excl, SpaceOf, Received, Left, PendingCopy, LosesTemp, SharesDevice, ForkZero;
    var (w, c) := ForkZero(v, p).value;
    ForkZeroEffect(v, p);
    LeftIsSpace(v, p);
    assert View(v)[p] == SpaceOf(v, p);
    assert View(w)[p] == Left(v, p, 0) && View(w)[c] == Received(v, p, 0);
    if !LosesTemp(v, p) {
      ReceivedIsSpace(v, p);
      SetSame(View(v), p, SpaceOf(v, p));
      ForkZeroReady(v, p);
    }
  }

  lemma SameChild(v: VM, p: nat)
    requires Ready(v) && p in v.dirs && ForkZero(v, p).Ok? && Fork(v, p).Ok?
    ensures ForkZero(v, p).value.1 == Fork(v, p).value.1
  {
    hide InvX, Small, Excl, ZeroPages, ForkPages, SysPageAlloc, View, SpaceOf, Create, Mapped;
  }

  // Then both forks, where they succeed, give every environment the same view.
  lemma BothForksAgree(v: VM, p: nat)
    requires Ready(v) && p in v.dirs && ForkZero(v, p).Ok? && Fork(v, p).Ok?
    ensures var (w, c) := ForkZero(v, p).value; var (u, d) := Fork(v, p).value;
      c == d && Mapped(w) && Mapped(u) && (View(w) == View(u) <==> !PendingCopy(v, p) && !LosesTemp(v, p))
  {
    hide PendingCopy, LosesTemp, SharesDevice, Fork, ForkZero, View, Good, Excl, Received, Left;
    ForkZeroIsEager(v, p);
    ForkZeroEffect(v, p);
    ForkEffect(v, p);
    SameChild(v, p);
  }
}
