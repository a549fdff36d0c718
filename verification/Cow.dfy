/** Copy-on-write fork (lib/fork.c) on the page system calls, against forks that copy every page at once. */
module CowFork {
  import opened Words
  import opened Vm
  import opened VmInv
  import opened Teardowns
  import opened Syscalls

  const XSTK := 977919   // page of the user exception stack, UXSTACKTOP - PGSIZE
  const PFTEMP := 2047   // page of PFTEMP

  const PUW := Word(0, 7)

  // Stop is a panic; Wrap a page mapped so often that its 16-bit count would wrap around.
  datatype Outcome<T> = Ok(value: T) | Stop | Wrap

  // A page as its environment sees it: its contents, and whether it may write to it.
  datatype Cell = Cell(page: Page, w: bool)

  // An address space without its exception stack.
  type Space = map<nat, Cell>

  ghost predicate Mapped(v: VM) { forall k :: k in v.ptes ==> v.ptes[k].pn in v.data }

  predicate MayWrite(pte: Word) { Writable(pte) || Cow(pte) }

  function CellOf(v: VM, k: Loc): Cell
    requires Mapped(v) && k in v.ptes
  {
    Cell(v.data[v.ptes[k].pn], MayWrite(v.ptes[k]))
  }

  function SpaceOf(v: VM, d: nat): (m: Space)
    requires Mapped(v)
  {
    map n | 0 <= n < UVPN && n != XSTK && Loc(d, n) in v.ptes :: CellOf(v, Loc(d, n))
  }

  // What every environment sees.
  ghost function View(v: VM): map<nat, Space>
    requires Mapped(v)
  {
    map d | d in v.dirs :: SpaceOf(v, d)
  }

  // A frame mapped twice is mapped writable by nobody.
  ghost predicate Excl(v: VM)
  {
    forall k, q :: k in v.ptes && q in v.ptes && k != q && v.ptes[k].pn == v.ptes[q].pn ==> !Writable(v.ptes[k])
  }

  // States in which user programs run: exact counts, exclusive writers, PFTEMP unused.
  ghost predicate Ready(v: VM)
  {
    Good(v) && Mapped(v) && Excl(v) && (forall d :: Loc(d, PFTEMP) !in v.ptes)
  }

  // ---- lib/fork.c ----

  // if ((err & FEC_WR) & !(fault_pte & PTE_COW)), as C evaluates it.
  predicate Guard(err: bv32, pte: Word) { (err & 2) & (if Cow(pte) then 0 else 1) != 0 }

  // The intended check never fires: the bitwise and is of 2 with 0 or 1.
  lemma GuardNeverFires(err: bv32, pte: Word)
    ensures !Guard(err, pte)
  {
  }

  // memmove(PFTEMP, addr, PGSIZE)
  function CopyPage(v: VM, dst: Loc, src: Loc): (w: VM)
    requires Mapped(v) && dst in v.ptes && src in v.ptes
  {
    v.(data := v.data[v.ptes[dst].pn := v.data[v.ptes[src].pn]])
  }

  // A successful sys_page_alloc maps a fresh zero page and changes no other entry.
  lemma AllocAt(v: VM, d: nat, n: nat)
    requires Good(v) && d in v.dirs && n < UVPN
    ensures InRange(v)
    ensures var (w, r) := SysPageAlloc(v, d, n * PGSIZE, PUW);
            Good(w) && w.dirs == v.dirs && SameData(v, w) && (r == 0 || r == E_NO_MEM)
    ensures var (w, r) := SysPageAlloc(v, d, n * PGSIZE, PUW);
            if r == 0 then
              && v.free != [] && v.free[0] !in v.data && v.free[0] in w.data && w.data[v.free[0]] == ZeroPage()
              && w.ptes == v.ptes[Loc(d, n) := Word(v.free[0], 7)]
            else w.ptes == v.ptes
  {
    hide Insert, InvX, Small, Pool, BadVa, CanWalk;
    GoodRange(v);
    VaOk(n);
    assert UserPerm(PUW) == PUW && PermOk(PUW);
    if v.free != [] {
      AllocGood(v);
      GoodRange(PageAlloc(v));
      InsertAt(PageAlloc(v), Loc(d, n), v.free[0], PUW);
    }
  }

  // Pages that both states have hold the same.
  ghost predicate SameData(v: VM, w: VM) { forall f :: f in v.data && f in w.data ==> w.data[f] == v.data[f] }

  lemma GoodRange(v: VM)
    requires Good(v)
    ensures InRange(v) && Mapped(v)
    ensures v.free != [] ==> v.free[0] !in v.data && v.free[0] < |v.ref|
  {
  }

  // sys_page_map of a mapped page: one entry changes, or nothing does.
  lemma MapAt(v: VM, src: Loc, dst: Loc, perm: Word)
    requires Good(v) && src in v.ptes && dst.d in v.dirs && dst.vpn < UVPN
    requires perm.pn == 0 && (Writable(perm) ==> Writable(v.ptes[src]))
    requires v.ptes[src].pn < |v.ref| ==> v.ref[v.ptes[src].pn] < 65535
    ensures var (w, r) := SysPageMap(v, src.d, src.vpn * PGSIZE, dst.d, dst.vpn * PGSIZE, perm);
            if CanWalk(v, dst) then
              && r == 0 && Good(w) && w.dirs == v.dirs && Content(v, w) && SlotOf(dst) in w.tabs
              && w.ptes == v.ptes[dst := Word(v.ptes[src].pn, UserPerm(perm).fl)] && v.ptes[src].pn in w.data
            else (w, r) == (v, E_NO_MEM)
  {
    hide Insert, InvX, Small, Content, Pool, BadVa, CanWalk;
    SrcFacts(v, src);
    VaOk(src.vpn);
    VaOk(dst.vpn);
    UserPermFlags(perm);
    InsertAt(v, dst, v.ptes[src].pn, UserPerm(perm));
  }

  lemma VaOk(n: nat)
    requires n < UVPN
    ensures !BadVa(n * PGSIZE) && n * PGSIZE / PGSIZE == n
  {
  }

  lemma SrcFacts(v: VM, k: Loc)
    requires Inv(v) && k in v.ptes
    ensures InRange(v) && Mapped(v) && k.vpn < UVPN && k.d in v.dirs
    ensures v.ptes[k].pn in v.data && v.ptes[k].pn < |v.ref|
  {
  }

  // InsertFlat with what callers of the system calls need of it.
  lemma InsertAt(v: VM, k: Loc, f: nat, perm: Word)
    requires Good(v) && k.d in v.dirs && k.vpn < UVPN && f in v.data && f < |v.ref| && v.ref[f] < 65535
    requires perm.pn == 0 && perm.fl & 4 != 0 && perm.fl | PTE_P == perm.fl && InRange(v)
    ensures var (w, r) := Insert(v, k, f, perm);
            if CanWalk(v, k) then
              && r == 0 && Good(w) && w.dirs == v.dirs && Content(v, w) && SlotOf(k) in w.tabs
              && w.ptes == v.ptes[k := Word(f, perm.fl)] && f in w.data
            else (w, r) == (v, E_NO_MEM)
  {
    BitOrZero(f);
    InsertFlat(v, k, f, perm);
    hide Insert, Inv, Small, Content, Pool;
  }

  lemma CopyGood(v: VM, dst: Loc, src: Loc)
    requires Good(v) && dst in v.ptes && src in v.ptes
    ensures Mapped(v) && Good(CopyPage(v, dst, src))
  {
    var w := CopyPage(v, dst, src);
    assert w.data.Keys == v.data.Keys;
    assert forall f :: 0 <= f < |v.ref| ==> Refs(w, f) == Refs(v, f);
  }

  // The first half of pgfault: a new page at PFTEMP with the contents of page n.
  function FaultCopy(v: VM, d: nat, n: nat): (w: Outcome<VM>)
    requires Good(v) && d in v.dirs && Loc(d, n) in v.ptes && n != PFTEMP
  {
    AllocAt(v, d, PFTEMP);
    var (v1, r1) := SysPageAlloc(v, d, PFTEMP * PGSIZE, PUW);
    if r1 < 0 then Stop
    else
      CopyGood(v1, Loc(d, PFTEMP), Loc(d, n));
      Ok(CopyPage(v1, Loc(d, PFTEMP), Loc(d, n)))
  }

  lemma FaultCopyEffect(v: VM, d: nat, n: nat)
    requires Good(v) && d in v.dirs && Loc(d, n) in v.ptes && n != PFTEMP && FaultCopy(v, d, n).Ok?
    ensures v.free != []
    ensures var w, p := FaultCopy(v, d, n).value, v.free[0];
            && Good(w) && w.dirs == v.dirs && p !in v.data && p in w.data && SameData(v, w)
            && w.ptes == v.ptes[Loc(d, PFTEMP) := Word(p, 7)]
            && v.ptes[Loc(d, n)].pn in v.data && w.data[p] == v.data[v.ptes[Loc(d, n)].pn]
    ensures var w, p := FaultCopy(v, d, n).value, v.free[0]; p < |w.ref| && w.ref[p] == 1
  {
    hide InvX, Small, Pool, SysPageAlloc, CopyPage;
    var src, tmp := Loc(d, n), Loc(d, PFTEMP);
    GoodRange(v);
    AllocAt(v, d, PFTEMP);
    var v1 := SysPageAlloc(v, d, PFTEMP * PGSIZE, PUW).0;
    CopyGood(v1, tmp, src);
    CopyEffect(v1, tmp, src);
    FreshRef(v, FaultCopy(v, d, n).value, tmp, v.free[0]);
  }

  lemma CopyEffect(v: VM, dst: Loc, src: Loc)
    requires Mapped(v) && dst in v.ptes && src in v.ptes
    ensures var w := CopyPage(v, dst, src);
            && w.ptes == v.ptes && w.dirs == v.dirs && w.data.Keys == v.data.Keys
            && w.data[v.ptes[dst].pn] == v.data[v.ptes[src].pn]
            && (forall f :: f in v.data && f != v.ptes[dst].pn ==> w.data[f] == v.data[f])
  {
  }

  lemma FreshRef(v: VM, w: VM, k: Loc, p: nat)
    requires Mapped(v) && Good(w) && p !in v.data && p in w.data && w.ptes == v.ptes[k := Word(p, 7)]
    ensures p < |w.ref| && w.ref[p] == 1
  {
    DataRef(w, p);
    assert Maps(w.ptes, p) == {k};
  }

  // pgfault for a write at page n; Stop is a panic.
  function Pgfault(v: VM, d: nat, n: nat): (w: Outcome<VM>)
    requires Good(v) && d in v.dirs && Loc(d, n) in v.ptes && n != PFTEMP
  {
    if Guard(2, v.ptes[Loc(d, n)]) then Stop
    else
      var c := FaultCopy(v, d, n);
      if !c.Ok? then Stop
      else
        FaultCopyEffect(v, d, n);
        MapAt(c.value, Loc(d, PFTEMP), Loc(d, n), PUW);
        var (v3, r3) := SysPageMap(c.value, d, PFTEMP * PGSIZE, d, n * PGSIZE, PUW);
        if r3 < 0 then Stop else Ok(SysPageUnmap(v3, d, PFTEMP * PGSIZE).0)
  }

  // pgfault gives page n a private writable frame with the same contents, and changes no other
  // entry and no other page.
  lemma PgfaultEffect(v: VM, d: nat, n: nat)
    requires Ready(v) && d in v.dirs && Loc(d, n) in v.ptes && n != PFTEMP && Pgfault(v, d, n).Ok?
    ensures var w, k := Pgfault(v, d, n).value, Loc(d, n);
            && Good(w) && w.dirs == v.dirs && k in w.ptes && w.ptes[k].pn !in v.data && SameData(v, w)
            && w.ptes == v.ptes[k := Word(w.ptes[k].pn, 7)]
            && w.ptes[k].pn in w.data && w.data[w.ptes[k].pn] == v.data[v.ptes[k].pn]
  {
    hide InvX, Small, Pool, BadVa, CanWalk, FaultCopy, SysPageMap, Content, Remove;
    var src, tmp := Loc(d, n), Loc(d, PFTEMP);
    FaultCopyEffect(v, d, n);
    var v2 := FaultCopy(v, d, n).value;
    GoodRange(v2);
    SrcFacts(v, src);
    MapAt(v2, tmp, src, PUW);
    assert UserPerm(PUW) == PUW;
    var v3 := SysPageMap(v2, d, PFTEMP * PGSIZE, d, n * PGSIZE, PUW).0;
    VaOk(PFTEMP);
    UnmapTemp(v3, tmp);
    ContentSame(v2, v3);
  }

  lemma UnmapTemp(v: VM, k: Loc)
    requires Good(v)
    ensures InRange(v) && Mapped(v) && Good(Remove(v, k)) && Mapped(Remove(v, k)) && SameData(v, Remove(v, k))
    ensures forall f :: f in Remove(v, k).data ==> f in v.data
  {
    RemoveTorn(v, k);
    GoodRange(v);
    GoodRange(Remove(v, k));
  }

  lemma ContentSame(v: VM, w: VM)
    requires Content(v, w)
    ensures SameData(v, w) && (forall f :: f in w.data ==> f in v.data)
  {
  }

  // perm in duppage, before PTE_COW.
  function DupPerm(pte: Word): Word { Word(0, 5 | (if pte.fl & PTE_IO != 0 then PTE_IO else 0)) }

  function CowPerm(pte: Word): Word { Word(0, DupPerm(pte).fl | PTE_COW) }

  lemma DupPermFlags(pte: Word)
    ensures !Writable(DupPerm(pte)) && !Cow(DupPerm(pte)) && !Writable(CowPerm(pte)) && Cow(CowPerm(pte))
    ensures DupPerm(pte).pn == 0 && CowPerm(pte).pn == 0
    ensures UserPerm(DupPerm(pte)) == DupPerm(pte) && UserPerm(CowPerm(pte)) == CowPerm(pte)
  {
  }

  // duppage of a present page.
  function Duppage(v: VM, p: nat, c: nat, n: nat): (w: Outcome<VM>)
    requires Good(v) && p in v.dirs && c in v.dirs && Loc(p, n) in v.ptes
  {
    SrcFacts(v, Loc(p, n));
    var pte := v.ptes[Loc(p, n)];
    var f := pte.pn;
    if v.ref[f] >= 65534 then Wrap
    else if Writable(pte) || Cow(pte) then
      DupPermFlags(pte);
      MapAt(v, Loc(p, n), Loc(c, n), CowPerm(pte));
      var (v1, r1) := SysPageMap(v, p, n * PGSIZE, c, n * PGSIZE, CowPerm(pte));
      if r1 < 0 then Stop
      else
        CountUp(v, v1, Loc(c, n), f, CowPerm(pte).fl);
        MapAt(v1, Loc(p, n), Loc(p, n), CowPerm(pte));
        var (v2, r2) := SysPageMap(v1, p, n * PGSIZE, p, n * PGSIZE, CowPerm(pte));
        if r2 < 0 then Stop else Ok(v2)
    else
      DupPermFlags(pte);
      MapAt(v, Loc(p, n), Loc(c, n), DupPerm(pte));
      var (v1, r1) := SysPageMap(v, p, n * PGSIZE, c, n * PGSIZE, DupPerm(pte));
      if r1 < 0 then Stop else Ok(v1)
  }

  // One more entry raises a count by at most one.
  lemma CountUp(v: VM, w: VM, k: Loc, f: nat, fl: bv12)
    requires Good(v) && Good(w) && f in v.data && f in w.data && w.ptes == v.ptes[k := Word(f, fl)]
    ensures f < |v.ref| && f < |w.ref| && w.ref[f] <= v.ref[f] + 1
  {
    DataRef(v, f);
    DataRef(w, f);
    Union(Maps(v.ptes, f), Maps(w.ptes, f), k);
  }

  lemma Union(a: set<Loc>, b: set<Loc>, k: Loc)
    requires b <= a + {k}
    ensures |b| <= |a| + 1
  {
    Smaller(b, a + {k});
  }

  lemma {:induction false} Smaller<T>(a: set<T>, b: set<T>)
    requires a <= b
    ensures |a| <= |b|
  {
    assert b == a + (b - a);
  }

  // ---- What an update of one entry does to the view ----

  // One entry is written and no shared page changes.
  ghost predicate PutAt(v: VM, w: VM, k: Loc, pte: Word)
  {
    && Mapped(v) && Mapped(w) && w.dirs == v.dirs && k.d in v.dirs && k.vpn < UVPN
    && w.ptes == v.ptes[k := pte] && SameData(v, w)
  }

  lemma PutCell(v: VM, w: VM, k: Loc, pte: Word, q: Loc)
    requires PutAt(v, w, k, pte) && q in w.ptes
    ensures CellOf(w, q) == if q == k then CellOf(w, k) else CellOf(v, q)
  {
  }

  lemma PutSpace(v: VM, w: VM, k: Loc, pte: Word, d: nat)
    requires PutAt(v, w, k, pte)
    ensures k in w.ptes
    ensures SpaceOf(w, d) == if d == k.d && k.vpn != XSTK then SpaceOf(v, d)[k.vpn := CellOf(w, k)] else SpaceOf(v, d)
  {
    hide CellOf;
    forall n | Loc(d, n) in w.ptes
      ensures CellOf(w, Loc(d, n)) == if Loc(d, n) == k then CellOf(w, k) else CellOf(v, Loc(d, n))
    {
      PutCell(v, w, k, pte, Loc(d, n));
    }
  }

  lemma PutView(v: VM, w: VM, k: Loc, pte: Word)
    requires PutAt(v, w, k, pte)
    ensures k in w.ptes
    ensures View(w) == if k.vpn == XSTK then View(v) else View(v)[k.d := SpaceOf(v, k.d)[k.vpn := CellOf(w, k)]]
  {
    forall d | d in v.dirs {
      PutSpace(v, w, k, pte, d);
    }
    hide CellOf, SpaceOf, Mapped;
  }

  // ---- fork ----

  // Further read-only entries for a page that src maps, and src itself read-only or unchanged.
  lemma ExclShare(v: VM, w: VM, src: Loc, dst: Loc, a: Word, b: Word)
    requires Excl(v) && src in v.ptes && src != dst
    requires w.ptes == v.ptes[dst := a][src := b] && a.pn == v.ptes[src].pn && b.pn == a.pn
    requires !Writable(a) && !Writable(b)
    ensures Excl(w)
  {
    forall k, q | k in w.ptes && q in w.ptes && k != q && w.ptes[k].pn == w.ptes[q].pn
      ensures !Writable(w.ptes[k])
    {
      if k != src && k != dst {
        assert w.ptes[k] == v.ptes[k];
        if q == src || q == dst {
          assert v.ptes[k].pn == v.ptes[src].pn;
        } else {
          assert w.ptes[q] == v.ptes[q];
        }
      }
    }
  }

  // One sys_page_map of the page at src: the entry written shows the same page.
  ghost predicate Shared(v: VM, w: VM, src: Loc, dst: Loc, fl: bv12)
  {
    && Good(w) && src in v.ptes && PutAt(v, w, dst, Word(v.ptes[src].pn, fl))
    && dst in w.ptes && CellOf(w, dst) == CellOf(v, src)
  }

  lemma ShareStep(v: VM, w: VM, src: Loc, dst: Loc, perm: Word)
    requires Good(v) && Good(w) && src in v.ptes && dst.d in v.dirs && dst.vpn < UVPN
    requires w.dirs == v.dirs && Content(v, w) && w.ptes == v.ptes[dst := Word(v.ptes[src].pn, perm.fl)]
    requires MayWrite(Word(0, perm.fl)) == MayWrite(v.ptes[src])
    ensures Shared(v, w, src, dst, perm.fl)
  {
    GoodRange(v);
    GoodRange(w);
    ContentSame(v, w);
    assert w.ptes[dst] == Word(v.ptes[src].pn, perm.fl);
    hide InvX, Small, Content;
  }

  // duppage of a page nobody may write: one more read-only mapping.
  lemma DupRo(v: VM, p: nat, c: nat, n: nat)
    requires Good(v) && p in v.dirs && c in v.dirs && Loc(p, n) in v.ptes && Duppage(v, p, c, n).Ok?
    requires !MayWrite(v.ptes[Loc(p, n)])
    ensures Shared(v, Duppage(v, p, c, n).value, Loc(p, n), Loc(c, n), DupPerm(v.ptes[Loc(p, n)]).fl)
  {
    var src, dst, pte := Loc(p, n), Loc(c, n), v.ptes[Loc(p, n)];
    SrcFacts(v, src);
    DupPermFlags(pte);
    hide InvX, Small, Content, SysPageMap, CanWalk, DupPerm, CowPerm, Writable, Cow;
    MapAt(v, src, dst, DupPerm(pte));
    ShareStep(v, Duppage(v, p, c, n).value, src, dst, DupPerm(pte));
  }

  // duppage of a page somebody may write: both mappings end read-only and copy-on-write.
  lemma DupCow(v: VM, p: nat, c: nat, n: nat) returns (v1: VM)
    requires Good(v) && p in v.dirs && c in v.dirs && Loc(p, n) in v.ptes && Duppage(v, p, c, n).Ok?
    requires MayWrite(v.ptes[Loc(p, n)]) && p != c
    ensures Shared(v, v1, Loc(p, n), Loc(c, n), CowPerm(v.ptes[Loc(p, n)]).fl)
    ensures Shared(v1, Duppage(v, p, c, n).value, Loc(p, n), Loc(p, n), CowPerm(v.ptes[Loc(p, n)]).fl)
  {
    var src, dst, pte := Loc(p, n), Loc(c, n), v.ptes[Loc(p, n)];
    SrcFacts(v, src);
    DupPermFlags(pte);
    hide InvX, Small, Content, SysPageMap, CanWalk, DupPerm, CowPerm, Writable, Cow;
    MapAt(v, src, dst, CowPerm(pte));
    v1 := SysPageMap(v, p, n * PGSIZE, c, n * PGSIZE, CowPerm(pte)).0;
    ShareStep(v, v1, src, dst, CowPerm(pte));
    CountUp(v, v1, dst, pte.pn, CowPerm(pte).fl);
    MapAt(v1, src, src, CowPerm(pte));
    ShareStep(v1, Duppage(v, p, c, n).value, src, src, CowPerm(pte));
  }

  // A share of the page at src changes the view at dst only.
  lemma SharedView(v: VM, w: VM, src: Loc, dst: Loc, fl: bv12)
    requires Shared(v, w, src, dst, fl) && dst.vpn != XSTK
    ensures View(w) == View(v)[dst.d := SpaceOf(v, dst.d)[dst.vpn := CellOf(v, src)]]
    ensures forall d :: SpaceOf(w, d) == if d == dst.d then SpaceOf(v, d)[dst.vpn := CellOf(v, src)] else SpaceOf(v, d)
  {
    hide CellOf, SpaceOf, View, InvX, Small;
    var pte := Word(v.ptes[src].pn, fl);
    PutView(v, w, dst, pte);
    forall d {
      PutSpace(v, w, dst, pte, d);
    }
  }

  lemma SelfSharedView(v: VM, w: VM, src: Loc, fl: bv12)
    requires Shared(v, w, src, src, fl) && src.vpn != XSTK
    ensures View(w) == View(v) && (forall d :: SpaceOf(w, d) == SpaceOf(v, d))
  {
    SharedView(v, w, src, src, fl);
    hide CellOf, InvX, Small;
    assert SpaceOf(v, src.d)[src.vpn := CellOf(v, src)] == SpaceOf(v, src.d);
    assert View(v)[src.d := SpaceOf(v, src.d)] == View(v);
  }

  lemma SharedExcl(v: VM, w: VM, src: Loc, dst: Loc, fl: bv12)
    requires Shared(v, w, src, dst, fl) && Excl(v) && src != dst && !Writable(v.ptes[src]) && !Writable(Word(0, fl))
    ensures Excl(w)
  {
    var f := v.ptes[src].pn;
    ExclShare(v, w, src, dst, Word(f, fl), v.ptes[src]);
  }

  // The page of src shows at dst too, and nobody sees anything else change.
  ghost predicate Dupped(v: VM, w: VM, src: Loc, dst: Loc) {
    && Ready(w) && w.dirs == v.dirs && Mapped(v) && src in v.ptes
    && View(w) == View(v)[dst.d := SpaceOf(v, dst.d)[dst.vpn := CellOf(v, src)]]
    && SpaceOf(w, src.d) == SpaceOf(v, src.d) && SpaceOf(w, dst.d) == SpaceOf(v, dst.d)[dst.vpn := CellOf(v, src)]
  }

  lemma DupCowEffect(v: VM, p: nat, c: nat, n: nat)
    requires Ready(v) && p in v.dirs && c in v.dirs && p != c && Loc(p, n) in v.ptes && n != XSTK
    requires MayWrite(v.ptes[Loc(p, n)]) && Duppage(v, p, c, n).Ok?
    ensures Dupped(v, Duppage(v, p, c, n).value, Loc(p, n), Loc(c, n))
  {
    var src, dst, pte := Loc(p, n), Loc(c, n), v.ptes[Loc(p, n)];
    var w := Duppage(v, p, c, n).value;
    DupPermFlags(pte);
    hide InvX, Small, Duppage, View, SpaceOf, CellOf, DupPerm, CowPerm, Writable, Cow, Excl, Shared;
    var v1 := DupCow(v, p, c, n);
    SharedPut(v, v1, src, dst, CowPerm(pte).fl);
    SharedPut(v1, w, src, src, CowPerm(pte).fl);
    SharedView(v, v1, src, dst, CowPerm(pte).fl);
    SelfSharedView(v1, w, src, CowPerm(pte).fl);
    ExclShare(v, w, src, dst, Word(pte.pn, CowPerm(pte).fl), Word(pte.pn, CowPerm(pte).fl));
  }

  lemma SharedPut(v: VM, w: VM, src: Loc, dst: Loc, fl: bv12)
    requires Shared(v, w, src, dst, fl)
    ensures Good(w) && Mapped(v) && Mapped(w) && w.dirs == v.dirs && src in v.ptes
    ensures w.ptes == v.ptes[dst := Word(v.ptes[src].pn, fl)]
  {
    hide InvX, Small, CellOf;
  }

  lemma DupRoEffect(v: VM, p: nat, c: nat, n: nat)
    requires Ready(v) && p in v.dirs && c in v.dirs && p != c && Loc(p, n) in v.ptes && n != XSTK
    requires !MayWrite(v.ptes[Loc(p, n)]) && Duppage(v, p, c, n).Ok?
    ensures Dupped(v, Duppage(v, p, c, n).value, Loc(p, n), Loc(c, n))
  {
    var src, dst, pte := Loc(p, n), Loc(c, n), v.ptes[Loc(p, n)];
    var w := Duppage(v, p, c, n).value;
    DupPermFlags(pte);
    hide InvX, Small, Duppage, View, SpaceOf, CellOf, DupPerm, Writable, Cow, Excl;
    DupRo(v, p, c, n);
    SharedView(v, w, src, dst, DupPerm(pte).fl);
    SharedExcl(v, w, src, dst, DupPerm(pte).fl);
  }

  // duppage: the child sees the parent's page, and nobody sees anything else change.
  lemma DuppageEffect(v: VM, p: nat, c: nat, n: nat)
    requires Ready(v) && p in v.dirs && c in v.dirs && p != c && Loc(p, n) in v.ptes && n != XSTK
    requires Duppage(v, p, c, n).Ok?
    ensures var w := Duppage(v, p, c, n).value;
            && Ready(w) && w.dirs == v.dirs
            && View(w) == View(v)[c := SpaceOf(v, c)[n := CellOf(v, Loc(p, n))]]
            && SpaceOf(w, p) == SpaceOf(v, p) && SpaceOf(w, c) == SpaceOf(v, c)[n := CellOf(v, Loc(p, n))]
  {
    hide InvX, Small, Duppage, View, SpaceOf, CellOf, Excl, Mapped;
    if MayWrite(v.ptes[Loc(p, n)]) {
      DupCowEffect(v, p, c, n);
    } else {
      DupRoEffect(v, p, c, n);
    }
  }

  // The loop of fork from page n on; pages whose table or entry is not present are skipped.
  function ForkPages(v: VM, p: nat, c: nat, n: nat): (w: Outcome<VM>)
    requires Ready(v) && p in v.dirs && c in v.dirs && p != c && n <= UVPN
    decreases UVPN - n
  {
    if n == UVPN then Ok(v)
    else if n == XSTK || Loc(p, n) !in v.ptes then ForkPages(v, p, c, n + 1)
    else
      var w := Duppage(v, p, c, n);
      if !w.Ok? then w
      else
        DuppageEffect(v, p, c, n);
        ForkPages(w.value, p, c, n + 1)
  }

  // The pages of a space from n on.
  function From(m: Space, n: nat): Space { map i | i in m && i >= n :: m[i] }

  lemma {:induction false} ForkPagesEffect(v: VM, p: nat, c: nat, n: nat)
    requires Ready(v) && p in v.dirs && c in v.dirs && p != c && n <= UVPN
    requires ForkPages(v, p, c, n).Ok?
    ensures var w := ForkPages(v, p, c, n).value;
            && Ready(w) && w.dirs == v.dirs
            && View(w) == View(v)[c := SpaceOf(v, c) + From(SpaceOf(v, p), n)]
    decreases UVPN - n
  {
    hide InvX, Small, Excl, View, SpaceOf, CellOf, Duppage, From;
    if n == UVPN {
      FromEnd(v, p, c);
    } else if n == XSTK || Loc(p, n) !in v.ptes {
      InSpace(v, p, n);
      ForkPagesEffect(v, p, c, n + 1);
      FromSkip(SpaceOf(v, p), n);
    } else {
      InSpace(v, p, n);
      DuppageEffect(v, p, c, n);
      var u := Duppage(v, p, c, n).value;
      ForkPagesEffect(u, p, c, n + 1);
      FromStep(SpaceOf(v, c), SpaceOf(v, p), n, CellOf(v, Loc(p, n)));
      UpdateTwice(View(v), c, SpaceOf(u, c), SpaceOf(v, c) + From(SpaceOf(v, p), n));
    }
  }

  lemma InSpace(v: VM, d: nat, n: nat)
    requires Mapped(v) && n < UVPN
    ensures n in SpaceOf(v, d) <==> n != XSTK && Loc(d, n) in v.ptes
    ensures n in SpaceOf(v, d) ==> SpaceOf(v, d)[n] == CellOf(v, Loc(d, n))
  {
  }

  lemma UpdateTwice<K, T>(m: map<K, T>, k: K, a: T, b: T)
    ensures m[k := a][k := b] == m[k := b]
  {
  }

  lemma FromSkip(m: Space, n: nat)
    requires n !in m
    ensures From(m, n) == From(m, n + 1)
  {
  }

  lemma FromStep(a: Space, b: Space, n: nat, x: Cell)
    requires n in b && b[n] == x
    ensures a[n := x] + From(b, n + 1) == a + From(b, n)
  {
  }

  lemma FromEnd(v: VM, p: nat, c: nat)
    requires Mapped(v) && c in v.dirs
    ensures View(v)[c := SpaceOf(v, c) + From(SpaceOf(v, p), UVPN)] == View(v)
  {
    assert From(SpaceOf(v, p), UVPN) == map[];
    assert SpaceOf(v, c) + map[] == SpaceOf(v, c);
  }

  // sys_exofork: a new environment that sees nothing.
  lemma CreateView(v: VM)
    requires Ready(v) && v.free != []
    ensures InRange(v)
    ensures var w, c := Create(v).0, v.free[0];
            && Ready(w) && c !in v.dirs && w.dirs == v.dirs + {c}
            && View(w) == View(v)[c := map[]] && SpaceOf(w, c) == map[]
            && (forall d :: SpaceOf(w, d) == SpaceOf(v, d))
  {
    hide InvX, Small, Pool;
    GoodRange(v);
    var w, c := Create(v).0, v.free[0];
    CreateGood(v);
    NoEntries(v, c);
    forall d ensures SpaceOf(w, d) == SpaceOf(v, d) {
      SpaceSame(v, w, d);
    }
    hide SpaceOf;
  }

  lemma SpaceSame(v: VM, w: VM, d: nat)
    requires Mapped(v) && Mapped(w) && w.ptes == v.ptes && w.data == v.data
    ensures SpaceOf(w, d) == SpaceOf(v, d)
  {
  }

  lemma NoEntries(v: VM, d: nat)
    requires Good(v) && v.free != [] && d == v.free[0]
    ensures Mapped(v) && d !in v.dirs && SpaceOf(v, d) == map[]
  {
  }

  // A page allocated for an exception stack shows in no space.
  lemma StackAlloc(v: VM, d: nat)
    requires Ready(v) && d in v.dirs
    ensures InRange(v)
    ensures var w := SysPageAlloc(v, d, XSTK * PGSIZE, PUW).0;
            Ready(w) && w.dirs == v.dirs && View(w) == View(v)
  {
    hide InvX, Small, SysPageAlloc, View, SpaceOf;
    AllocAt(v, d, XSTK);
    var (w, r) := SysPageAlloc(v, d, XSTK * PGSIZE, PUW);
    GoodRange(w);
    if r == 0 {
      PutView(v, w, Loc(d, XSTK), Word(v.free[0], 7));
      ExclFresh(v, w, Loc(d, XSTK), v.free[0]);
    } else {
      SameView(v, w);
    }
  }

  // A frame no entry named before may be mapped writable.
  lemma ExclFresh(v: VM, w: VM, k: Loc, f: nat)
    requires Excl(v) && Mapped(v) && f !in v.data && w.ptes == v.ptes[k := Word(f, 7)]
    ensures Excl(w)
  {
  }

  lemma SameView(v: VM, w: VM)
    requires Mapped(v) && Mapped(w) && w.dirs == v.dirs && w.ptes == v.ptes && SameData(v, w)
    ensures View(w) == View(v)
  {
    forall d ensures SpaceOf(w, d) == SpaceOf(v, d) {
      assert forall k :: k in v.ptes ==> CellOf(w, k) == CellOf(v, k);
    }
  }

  lemma CreateSome(v: VM)
    requires InRange(v)
    ensures Create(v).1 >= 0 <==> v.free != []
  {
  }

  // fork: the child's directory and the state, or a panic.
  function Fork(v: VM, p: nat): (w: Outcome<(VM, nat)>)
    requires Ready(v) && p in v.dirs
  {
    hide InvX, Small, Excl, SpaceOf, View, SysPageAlloc, ForkPages;
    GoodRange(v);
    var (v1, r1) := Create(v);
    if r1 < 0 then Stop
    else
      CreateView(v);
      var c := v.free[0];
      var v2 := ForkPages(v1, p, c, 0);
      if v2 == Stop then Stop
      else if v2 == Wrap then Wrap
      else
        ForkPagesEffect(v1, p, c, 0);
        GoodRange(v2.value);
        var (v3, r3) := SysPageAlloc(v2.value, c, XSTK * PGSIZE, PUW);
        if r3 < 0 then Stop else Ok((v3, c))
  }

  // After fork the child sees exactly what the parent sees, as if every page had been copied,
  // and nobody else sees a difference.
  lemma ForkEffect(v: VM, p: nat)
    requires Ready(v) && p in v.dirs && Fork(v, p).Ok?
    ensures var (w, c) := Fork(v, p).value;
            && Ready(w) && c !in v.dirs && w.dirs == v.dirs + {c}
            && View(w) == View(v)[c := View(v)[p]]
  {
    hide InvX, Small, SysPageAlloc, ForkPages, SpaceOf, Excl, Create, From;
    GoodRange(v);
    CreateSome(v);
    CreateView(v);
    var c := v.free[0];
    var v1 := Create(v).0;
    ForkPagesEffect(v1, p, c, 0);
    var v2 := ForkPages(v1, p, c, 0).value;
    StackAlloc(v2, c);
    FromAll(SpaceOf(v, p));
  }

  lemma FromAll(m: Space)
    ensures map[] + From(m, 0) == m
  {
  }

  // ---- Writes ----

  // The page fault handler does not look whether the page was copy-on-write: it leaves the view
  // as it was if and only if the page was one the environment might write to.
  lemma PgfaultView(v: VM, d: nat, n: nat)
    requires Ready(v) && d in v.dirs && Loc(d, n) in v.ptes && n != PFTEMP && n != XSTK && Pgfault(v, d, n).Ok?
    ensures var w := Pgfault(v, d, n).value;
            && Ready(w) && w.dirs == v.dirs && Loc(d, n) in w.ptes && Writable(w.ptes[Loc(d, n)])
            && View(w) == View(v)[d := SpaceOf(v, d)[n := CellOf(v, Loc(d, n)).(w := true)]]
            && (View(w) == View(v) <==> MayWrite(v.ptes[Loc(d, n)]))
  {
    hide InvX, Small, Pgfault, SpaceOf;
    var w, k := Pgfault(v, d, n).value, Loc(d, n);
    PgfaultEffect(v, d, n);
    GoodRange(w);
    SrcFacts(v, k);
    var pte := w.ptes[k];
    assert Writable(pte);
    PutView(v, w, k, pte);
    ExclFresh(v, w, k, pte.pn);
    InSpace(v, d, n);
    var x := CellOf(v, k).(w := true);
    assert CellOf(w, k) == x;
    if MayWrite(v.ptes[k]) {
      assert x == CellOf(v, k);
      SetSame(SpaceOf(v, d), n, x);
      SetSame(View(v), d, SpaceOf(v, d));
    } else {
      assert View(w)[d][n].w && !View(v)[d][n].w;
    }
  }

  lemma SetSame<K, T>(m: map<K, T>, k: K, x: T)
    requires k in m && m[k] == x
    ensures m[k := x] == m
  {
  }

  // A store through a writable entry is seen by its own environment only.
  lemma StoreView(v: VM, k: Loc, off: nat, x: Word)
    requires Ready(v) && k in v.ptes && Writable(v.ptes[k]) && k.vpn != XSTK && off < 1024
    ensures var w, c := Store(v, k, off, x), CellOf(v, k);
            && Ready(w) && w.dirs == v.dirs
            && View(w) == View(v)[k.d := SpaceOf(v, k.d)[k.vpn := c.(page := c.page[off := x])]]
  {
    var w, c := Store(v, k, off, x), CellOf(v, k);
    StoreGood(v, k, off, x);
    SrcFacts(v, k);
    hide InvX, Small, Pool;
    forall d ensures SpaceOf(w, d) == if d == k.d then SpaceOf(v, d)[k.vpn := c.(page := c.page[off := x])] else SpaceOf(v, d) {
      StoreSpace(v, k, off, x, d);
    }
    hide SpaceOf;
  }

  lemma StoreSpace(v: VM, k: Loc, off: nat, x: Word, d: nat)
    requires Mapped(v) && Excl(v) && k in v.ptes && Writable(v.ptes[k]) && k.vpn != XSTK && k.vpn < UVPN && off < 1024
    requires Mapped(Store(v, k, off, x))
    ensures var w, c := Store(v, k, off, x), CellOf(v, k);
            SpaceOf(w, d) == if d == k.d then SpaceOf(v, d)[k.vpn := c.(page := c.page[off := x])] else SpaceOf(v, d)
  {
    var w, c := Store(v, k, off, x), CellOf(v, k);
    forall q | q in v.ptes
      ensures CellOf(w, q) == if q == k then c.(page := c.page[off := x]) else CellOf(v, q)
    {
    }
    hide CellOf, Store, Excl;
  }

  // An environment that goes away takes its own space with it, and nothing else.
  lemma ExitView(v: VM, d: nat)
    requires Ready(v) && d in v.dirs
    ensures InRange(v) && d < |v.ref|
    ensures var w := Teardown(v, d); Ready(w) && w.dirs == v.dirs - {d} && View(w) == View(v) - {d}
  {
    ExitFacts(v, d);
    hide Good, Teardown, Content, Excl, SpaceOf, PtesBut, InRange;
    var w := Teardown(v, d);
    ExitExcl(v, w, d);
    forall e | e in w.dirs ensures SpaceOf(w, e) == SpaceOf(v, e) {
      ExitSpace(v, w, d, e);
    }
    ViewBut(v, w, d);
  }

  lemma ViewBut(v: VM, w: VM, d: nat)
    requires Mapped(v) && Mapped(w) && w.dirs == v.dirs - {d}
    requires forall e :: e in w.dirs ==> SpaceOf(w, e) == SpaceOf(v, e)
    ensures View(w) == View(v) - {d}
  {
    hide SpaceOf, Mapped;
  }

  lemma ExitFacts(v: VM, d: nat)
    requires Good(v) && d in v.dirs
    ensures InRange(v) && d < |v.ref|
    ensures var w := Teardown(v, d);
            Good(w) && Mapped(w) && Content(v, w) && w.ptes == PtesBut(v.ptes, d, 0) && w.dirs == v.dirs - {d}
  {
    hide Pool;
    TeardownTorn(v, d);
    GoodRange(Teardown(v, d));
  }

  lemma ExitExcl(v: VM, w: VM, d: nat)
    requires Excl(v) && w.ptes == PtesBut(v.ptes, d, 0)
    requires forall e :: Loc(e, PFTEMP) !in v.ptes
    ensures Excl(w) && (forall e :: Loc(e, PFTEMP) !in w.ptes)
  {
  }

  lemma ExitSpace(v: VM, w: VM, d: nat, e: nat)
    requires Mapped(v) && Mapped(w) && w.ptes == PtesBut(v.ptes, d, 0) && Content(v, w) && e != d
    ensures SpaceOf(w, e) == SpaceOf(v, e)
  {
    forall n | Loc(e, n) in v.ptes
      ensures Loc(e, n) in w.ptes && CellOf(w, Loc(e, n)) == CellOf(v, Loc(e, n))
    {
    }
    hide CellOf;
  }
}
