/** Environment memory and page system calls on the kernel's own structures. */
module KernelCalls {
  import opened Words
  import opened Vm
  import opened VmInv
  import opened Teardowns
  import opened Syscalls
  import opened Tables
  import opened Pmap

  // env_setup_vm: a copy of the kernel's directory that maps itself at UVPT.
  method EnvSetupVm(kn: Kernel) returns (d: int)
    requires kn.Valid(multiset{})
    modifies kn`freeList, kn`v, kn.link, kn.refc, kn.mem
    ensures kn.Valid(multiset{}) && InRange(old(kn.v)) && kn.v == Create(old(kn.v)).0
    ensures d == if old(kn.v.free) == [] then E_NO_MEM else old(kn.v.free[0])
  {
    hide InvX, Represents, ListRep, Small, Coherent, NewDir;
    ghost var v0, m0 := kn.v, kn.mem[..];
    NewDirValid(v0, m0, kn.kern, kn.cr3, kn.tlb);
    d := kn.PageAlloc();
    if d == -1 {
      return E_NO_MEM;
    }
    kn.mem[d] := kn.mem[kn.kern];
    kn.refc[d] := (kn.refc[d] + 1) % 65536;
    kn.mem[d] := kn.mem[d][UVPT_PDX := Word(d, 5)];
    kn.v := NewDir(v0);
    assert kn.refc[..] == v0.ref[d := Inc(v0.ref[d])];
    assert kn.mem[..] == m0[d := m0[kn.kern][UVPT_PDX := Word(d, 5)]];
  }

  lemma NewDirValid(v: VM, mem: seq<Page>, kern: nat, cr3: nat, tlb: map<nat, Word>)
    requires Inv(v) && Small(v) && Represents(v, mem, kern) && Coherent(v, cr3, tlb)
    ensures InRange(v) && FreeOk(v) && kern < |mem|
    ensures v.free != [] ==> var u, d := NewDir(v), v.free[0];
            && d < |mem| && d != kern && Inv(u) && Small(u) && u == Create(v).0
            && u.ref == v.ref[d := Inc(v.ref[d])] && u.free == v.free[1..]
            && Represents(u, mem[d := mem[kern][UVPT_PDX := Word(d, 5)]], kern)
            && Coherent(u, cr3, tlb)
  {
    if v.free != [] {
      FreeUnreferenced(v, 0);
      NewDirKeeps(v);
      NewDirRep(v, mem, kern);
    }
  }

  lemma NewDirRep(v: VM, mem: seq<Page>, kern: nat)
    requires Shape(v) && FreeOk(v) && Represents(v, mem, kern) && v.free != []
    ensures v.free[0] < |v.ref| && v.free[0] < |mem|
    ensures Represents(NewDir(v), mem[v.free[0] := mem[kern][UVPT_PDX := Word(v.free[0], 5)]], kern)
  {
    var d := v.free[0];
    RepScratch(v, mem, kern, d, mem[kern][UVPT_PDX := Word(d, 5)]);
  }

  // What env_free's tests of PTE_P read: whether the table, and the entry, exist.
  lemma TableBit(v: VM, x: multiset<nat>, mem: seq<Page>, kern: nat, s: Slot)
    requires InvX(v, x) && Represents(v, mem, kern) && s.d in v.dirs && s.pdx < UPDX
    ensures InRange(v) && s.d < |mem| && s.d < |v.ref|
    ensures Present(mem[s.d][s.pdx]) <==> s in v.tabs
    ensures s in v.tabs ==> mem[s.d][s.pdx].pn == v.tabs[s] && v.tabs[s] < |mem| && v.tabs[s] !in v.free
  {
    assert mem[s.d][s.pdx] == PdeWord(v, s);
  }

  lemma EntryBit(v: VM, x: multiset<nat>, mem: seq<Page>, kern: nat, s: Slot, j: nat)
    requires InvX(v, x) && Represents(v, mem, kern) && s in v.tabs && j < 1024
    ensures s.d in v.dirs && At(s, j).vpn < UVPN && v.tabs[s] < |mem| && InRange(v)
    ensures Present(mem[v.tabs[s]][j]) <==> At(s, j) in v.ptes
  {
    assert mem[v.tabs[s]][j] == PteWord(v, At(s, j));
    if At(s, j) in v.ptes {
      PresentOf(v.ptes[At(s, j)]);
    }
  }

  // The inner loop of env_free: the table of s, in frame t, loses its entries.
  method ClearEntries(kn: Kernel, s: Slot, t: nat)
    requires kn.Valid(multiset{}) && s in kn.v.tabs && t == kn.v.tabs[s]
    modifies kn`freeList, kn`v, kn`tlb, kn.link, kn.refc, kn.mem
    ensures kn.Valid(multiset{}) && InRange(old(kn.v)) && kn.v == ClearTable(old(kn.v), s, 0)
  {
    hide InvX, Represents, ListRep, Small, Coherent, Loaded, Remove, InRange, ClearTable;
    ghost var v0 := kn.v;
    EntryBit(v0, multiset{}, kn.mem[..], kn.kern, s, 0);
    var j := 0;
    while j < 1024
      invariant 0 <= j <= 1024 && kn.Valid(multiset{}) && InRange(kn.v) && kn.v.tabs == v0.tabs
      invariant ClearTable(kn.v, s, j) == ClearTable(v0, s, 0)
    {
      EntryBit(kn.v, multiset{}, kn.mem[..], kn.kern, s, j);
      ghost var vj := kn.v;
      ClearStep(vj, s, j);
      if Present(kn.mem[t][j]) {
        kn.PageRemove(At(s, j), multiset{});
      }
      j := j + 1;
    }
    ClearDone(kn.v, s);
  }

  lemma ClearDone(v: VM, s: Slot)
    requires InRange(v)
    ensures ClearTable(v, s, 1024) == v
  {
  }

  // One turn of env_free's outer loop.
  method FreeOneTable(kn: Kernel, s: Slot)
    requires kn.Valid(multiset{}) && s.d in kn.v.dirs && s.pdx < UPDX
    modifies kn`freeList, kn`v, kn`tlb, kn.link, kn.refc, kn.mem
    ensures kn.Valid(multiset{}) && InRange(old(kn.v)) && kn.v == FreeTable(old(kn.v), s)
  {
    hide InvX, Represents, ListRep, Small, Coherent, Loaded, InRange, Decref, ClearTable;
    ghost var v0 := kn.v;
    TableBit(v0, multiset{}, kn.mem[..], kn.kern, s);
    if !Present(kn.mem[s.d][s.pdx]) {
      return;
    }
    var t := kn.mem[s.d][s.pdx].pn;
    ClearEntries(kn, s, t);
    ghost var v1, m1 := kn.v, kn.mem[..];
    FreeTableValid(v0, s, m1, kn.kern, kn.cr3, kn.tlb);
    kn.mem[s.d] := kn.mem[s.d][s.pdx := ZERO];
    kn.PageDecref(t);
    kn.v := FreeTable(v0, s);
    assert kn.mem[..] == m1[s.d := m1[s.d][s.pdx := ZERO]];
  }

  lemma FreeTableValid(v: VM, s: Slot, mem: seq<Page>, kern: nat, cr3: nat, tlb: map<nat, Word>)
    requires Inv(v) && Small(v) && s in v.tabs && InRange(v)
    requires Represents(ClearTable(v, s, 0), mem, kern) && Coherent(ClearTable(v, s, 0), cr3, tlb)
    ensures s.d < |mem|
    ensures var u, w, t := ClearTable(v, s, 0), FreeTable(v, s), v.tabs[s];
            && t < |u.ref| && t !in u.free
            && Inv(w) && Small(w) && Represents(w, mem[s.d := mem[s.d][s.pdx := ZERO]], kern) && Coherent(w, cr3, tlb)
            && w.ref == Decref(u, t).ref && w.free == Decref(u, t).free
  {
    hide InvX, Small, Represents, Coherent, Shrinks, Pool, Cleared, ClearTable;
    var u := ClearTable(v, s, 0);
    ClearTableTorn(v, s, 0);
    FreeTableTorn(v, s);
    RepFreeTable(u, s, mem, kern);
    CoherentSame(u, FreeTable(v, s), cr3, tlb);
    NotFree(u, s);
  }

  lemma NotFree(v: VM, s: Slot)
    requires Inv(v) && s in v.tabs
    ensures v.tabs[s] !in v.free
  {
  }

  lemma RepFreeTable(u: VM, s: Slot, mem: seq<Page>, kern: nat)
    requires Inv(u) && s in u.tabs && Represents(u, mem, kern)
    ensures s.d < |mem| && u.tabs[s] < |u.ref|
    ensures Represents(Decref(u.(tabs := u.tabs - {s}), u.tabs[s]), mem[s.d := mem[s.d][s.pdx := ZERO]], kern)
  {
    var u1 := u.(tabs := u.tabs - {s});
    RepDropTable(u, mem, kern, s, u1);
    RepDecref(u1, mem[s.d := mem[s.d][s.pdx := ZERO]], kern, u.tabs[s]);
  }

  // The end of env_free: e->env_pgdir = 0 and page_decref of the directory's frame.
  method FreeDirectory(kn: Kernel, d: nat)
    requires kn.Valid(multiset{}) && d in kn.v.dirs && kn.cr3 != d
    requires forall k :: k in kn.v.ptes ==> k.d != d
    requires forall s :: s in kn.v.tabs ==> s.d != d
    modifies kn`freeList, kn`v, kn`cur, kn.link, kn.refc
    ensures kn.Valid(multiset{}) && d < |old(kn.v).ref|
    ensures kn.v == Decref(old(kn.v).(dirs := old(kn.v).dirs - {d}), d)
    ensures kn.cur == if old(kn.cur) == Some(d) then None else old(kn.cur)
  {
    hide InvX, Represents, ListRep, Small, Coherent, Decref;
    ghost var v0 := kn.v;
    FreeDirValid(v0, d, kn.mem[..], kn.kern, kn.cr3, kn.tlb);
    if kn.cur == Some(d) {
      kn.cur := None;
    }
    kn.PageDecref(d);
    kn.v := Decref(v0.(dirs := v0.dirs - {d}), d);
  }

  lemma FreeDirValid(v: VM, d: nat, mem: seq<Page>, kern: nat, cr3: nat, tlb: map<nat, Word>)
    requires Inv(v) && Small(v) && d in v.dirs && Represents(v, mem, kern) && Coherent(v, cr3, tlb)
    requires forall k :: k in v.ptes ==> k.d != d
    requires forall s :: s in v.tabs ==> s.d != d
    ensures d < |v.ref| && d !in v.free
    ensures var w := Decref(v.(dirs := v.dirs - {d}), d);
            && Inv(w) && Small(w) && Represents(w, mem, kern) && Coherent(w, cr3, tlb)
            && w.ref == Decref(v, d).ref && w.free == Decref(v, d).free
  {
    hide InvX, Small, Represents, Coherent, Shrinks, Pool;
    DirRelease(v, d);
    RepDropDir(v, mem, kern, d);
    RepDecref(v.(dirs := v.dirs - {d}), mem, kern, d);
    CoherentSame(v, Decref(v.(dirs := v.dirs - {d}), d), cr3, tlb);
    DirNotFree(v, d);
  }

  lemma RepDropDir(v: VM, mem: seq<Page>, kern: nat, d: nat)
    requires Represents(v, mem, kern) && d in v.dirs
    ensures d != kern && Represents(v.(dirs := v.dirs - {d}), mem, kern)
  {
  }

  lemma CoherentSame(v: VM, w: VM, cr3: nat, tlb: map<nat, Word>)
    requires Coherent(v, cr3, tlb) && w.ptes == v.ptes
    ensures Coherent(w, cr3, tlb)
  {
  }

  lemma DirNotFree(v: VM, d: nat)
    requires Inv(v) && d in v.dirs
    ensures d !in v.free
  {
  }

  // env_free's share of memory: every table with its entries, then the directory.
  method EnvFree(kn: Kernel, d: nat)
    requires kn.Valid(multiset{}) && d in kn.v.dirs
    modifies kn`freeList, kn`v, kn`tlb, kn`cr3, kn`cur, kn.link, kn.refc, kn.mem
    ensures kn.Valid(multiset{}) && InRange(old(kn.v)) && d < |old(kn.v).ref| && kn.v == Teardown(old(kn.v), d)
    ensures kn.cr3 != d && kn.cur == if old(kn.cur) == Some(d) then None else old(kn.cur)
  {
    hide InvX, Represents, ListRep, Small, Coherent, Loaded, FreeTable, FreeTables, InRange, Decref;
    ghost var v0 := kn.v;
    TableBit(v0, multiset{}, kn.mem[..], kn.kern, Slot(d, 0));
    LeaveDir(kn, d);
    var i := 0;
    while i < UPDX
      invariant 0 <= i <= UPDX && kn.Valid(multiset{}) && InRange(kn.v) && kn.v.dirs == v0.dirs
      invariant FreeTables(kn.v, d, i) == FreeTables(v0, d, 0)
      invariant kn.cr3 != d && kn.cur == old(kn.cur)
    {
      ghost var vi := kn.v;
      FreeOneTable(kn, Slot(d, i));
      FreeStep(vi, d, i);
      i := i + 1;
    }
    FreeDone(kn.v, d);
    FreeTablesTorn(v0, d, 0);
    FreeDirectory(kn, d);
  }

  lemma FreeDone(v: VM, d: nat)
    requires InRange(v)
    ensures FreeTables(v, d, UPDX) == v
  {
  }

  // env_free's lcr3(kern_pgdir), done only when the environment is the current one.
  method LeaveDir(kn: Kernel, d: nat)
    requires kn.Valid(multiset{}) && d in kn.v.dirs
    modifies kn`tlb, kn`cr3
    ensures kn.Valid(multiset{}) && kn.cr3 != d
  {
    if kn.cur == Some(d) {
      kn.cr3, kn.tlb := kn.kern, map[];
    }
  }

  lemma FreeStep(v: VM, d: nat, i: nat)
    requires InRange(v) && i < UPDX
    ensures InRange(FreeTable(v, Slot(d, i))) && FreeTable(v, Slot(d, i)).dirs == v.dirs
    ensures FreeTables(v, d, i) == FreeTables(FreeTable(v, Slot(d, i)), d, i + 1)
  {
  }

  // ---- Page system calls, on address spaces that envid2env has resolved ----

  lemma AllocValid(v: VM, mem: seq<Page>, kern: nat, cr3: nat, tlb: map<nat, Word>)
    requires Inv(v) && Small(v) && Represents(v, mem, kern) && Coherent(v, cr3, tlb)
    ensures InRange(v) && FreeOk(v)
    ensures v.free != [] ==> var w, p := PageAlloc(v), v.free[0];
            && p < |mem| && p in w.data && p < |w.ref| && w.ref[p] == 0 && w.ref == v.ref && w.free == v.free[1..]
            && Inv(w) && Small(w) && Represents(w, mem[p := ZeroPage()], kern) && Coherent(w, cr3, tlb)
  {
    if v.free != [] {
      AllocGood(v);
      AllocRep(v, mem, kern);
      hide Inv, Represents;
    }
  }

  lemma AllocRep(v: VM, mem: seq<Page>, kern: nat)
    requires Shape(v) && FreeOk(v) && Represents(v, mem, kern) && v.free != []
    ensures v.free[0] < |mem| && Represents(PageAlloc(v), mem[v.free[0] := ZeroPage()], kern)
  {
    RepScratch(v, mem, kern, v.free[0], ZeroPage());
  }

  method EnvPageAllocM(kn: Kernel, k: Loc, perm: Word) returns (r: int)
    requires kn.Valid(multiset{}) && k.d in kn.v.dirs && k.vpn < UVPN
    modifies kn`freeList, kn`v, kn`tlb, kn.link, kn.refc, kn.mem
    ensures kn.Valid(multiset{}) && InRange(old(kn.v)) && (kn.v, r) == EnvPageAlloc(old(kn.v), k, perm)
  {
    hide InvX, Represents, ListRep, Small, Coherent, InRange, Insert;
    ghost var v0, m0 := kn.v, kn.mem[..];
    AllocValid(v0, m0, kn.kern, kn.cr3, kn.tlb);
    if !PermOk(perm) {
      return E_INVAL;
    }
    var p := kn.PageAlloc();
    if p == -1 {
      return E_NO_MEM;
    }
    kn.v := PageAlloc(v0);
    BitOrZero(p);
    PermOkUser(perm);
    r := kn.PageInsert(k, p, perm);
  }

  method EnvPageMapM(kn: Kernel, src: Loc, dst: Loc, perm: Word) returns (r: int)
    requires kn.Valid(multiset{}) && src.d in kn.v.dirs && src.vpn < UVPN && dst.d in kn.v.dirs && dst.vpn < UVPN
    requires perm.fl & 4 != 0 && CountBelowTop(kn.v, src)
    modifies kn`freeList, kn`v, kn`tlb, kn.link, kn.refc, kn.mem
    ensures kn.Backed() && InRange(old(kn.v)) && (kn.v, r) == EnvPageMap(old(kn.v), src, dst, perm)
    ensures (src in old(kn.v).ptes ==> NamesFrame(old(kn.v).ptes[src].pn, perm)) ==> kn.Valid(multiset{})
  {
    hide Inv, Represents, ListRep, Small, Coherent, InRange, Insert;
    SourceFacts(kn.v, src);
    var f, t := kn.PageLookup(src, multiset{});
    if f == -1 {
      return E_INVAL;
    }
    if Writable(perm) && !Writable(kn.mem[t][src.vpn % 1024]) {
      return E_INVAL;
    }
    r := kn.PageInsert(dst, f, perm);
  }

  lemma SourceFacts(v: VM, src: Loc)
    requires Inv(v)
    ensures InRange(v)
    ensures src in v.ptes ==> v.ptes[src].pn in v.data && v.ptes[src].pn < |v.ref|
  {
  }

  // sys_page_alloc.
  method SysPageAllocM(kn: Kernel, d: nat, va: nat, perm: Word) returns (r: int)
    requires kn.Valid(multiset{}) && d in kn.v.dirs
    modifies kn`freeList, kn`v, kn`tlb, kn.link, kn.refc, kn.mem
    ensures kn.Valid(multiset{}) && InRange(old(kn.v)) && (kn.v, r) == SysPageAlloc(old(kn.v), d, va, perm)
  {
    if va >= UTOP || va % PGSIZE != 0 {
      return E_INVAL;
    }
    hide InvX, Represents, ListRep, Small, Coherent, InRange, EnvPageAlloc;
    r := EnvPageAllocM(kn, Loc(d, va / PGSIZE), UserPerm(perm));
  }

  // The page mapped at src, if any, has room for one more reference.
  predicate CountBelowTop(v: VM, src: Loc) {
    src in v.ptes && v.ptes[src].pn < |v.ref| ==> v.ref[v.ptes[src].pn] < 65535
  }

  // sys_page_map, with any perm: the state is valid afterwards exactly when the mapping was sound.
  method SysPageMapM(kn: Kernel, sd: nat, sva: nat, dd: nat, dva: nat, perm: Word) returns (r: int)
    requires kn.Valid(multiset{}) && sd in kn.v.dirs && dd in kn.v.dirs && CountBelowTop(kn.v, Loc(sd, sva / PGSIZE))
    modifies kn`freeList, kn`v, kn`tlb, kn.link, kn.refc, kn.mem
    ensures kn.Backed() && InRange(old(kn.v)) && (kn.v, r) == SysPageMap(old(kn.v), sd, sva, dd, dva, perm)
    ensures kn.Valid(multiset{}) <==> MapSound(old(kn.v), sd, sva, dd, dva, perm)
  {
    MapKeepsIff(kn.v, sd, sva, dd, dva, perm);
    if sva >= UTOP || sva % PGSIZE != 0 || dva >= UTOP || dva % PGSIZE != 0 {
      return E_INVAL;
    }
    UserPermFlags(perm);
    hide InvX, Represents, ListRep, Small, Coherent, InRange, EnvPageMap, MapSound;
    r := EnvPageMapM(kn, Loc(sd, sva / PGSIZE), Loc(dd, dva / PGSIZE), UserPerm(perm));
  }

  // sys_page_unmap.
  method SysPageUnmapM(kn: Kernel, d: nat, va: nat) returns (r: int)
    requires kn.Valid(multiset{}) && d in kn.v.dirs
    modifies kn`freeList, kn`v, kn`tlb, kn.link, kn.refc, kn.mem
    ensures kn.Valid(multiset{}) && InRange(old(kn.v)) && (kn.v, r) == SysPageUnmap(old(kn.v), d, va)
  {
    if va >= UTOP || va % PGSIZE != 0 {
      return E_INVAL;
    }
    kn.PageRemove(Loc(d, va / PGSIZE), multiset{});
    r := 0;
  }

  // ---- The processor ----

  // env_run's lcr3: loading a directory empties the TLB.
  method LoadDir(kn: Kernel, d: nat)
    requires kn.Valid(multiset{}) && d in kn.v.dirs
    modifies kn`cr3, kn`cur, kn`tlb
    ensures kn.Valid(multiset{}) && kn.cr3 == d && kn.cur == Some(d)
  {
    kn.cr3, kn.cur, kn.tlb := d, Some(d), map[];
  }

  // sched_halt: curenv = NULL and lcr3(kern_pgdir).
  method Halt(kn: Kernel)
    requires kn.Valid(multiset{})
    modifies kn`cr3, kn`cur, kn`tlb
    ensures kn.Valid(multiset{}) && kn.cr3 == kn.kern && kn.cur == None
  {
    kn.cr3, kn.cur, kn.tlb := kn.kern, None, map[];
  }

  // The processor may cache any translation its walk of the loaded directory finds.
  method HwFill(kn: Kernel, vpn: nat)
    requires kn.Valid(multiset{}) && vpn < UVPN && kn.cr3 in kn.v.dirs && kn.cr3 < kn.mem.Length
    modifies kn`tlb
    ensures kn.Valid(multiset{})
    ensures kn.tlb == if Loc(kn.cr3, vpn) in kn.v.ptes then old(kn.tlb)[vpn := kn.v.ptes[Loc(kn.cr3, vpn)]] else old(kn.tlb)
  {
    hide InvX, ListRep, Small, HwWalk, Represents, Coherent;
    DirInMem(kn.v, kn.mem[..], kn.kern, kn.cr3);
    var w := HwWalk(kn.mem[..], kn.cr3, vpn);
    FillCoherent(kn.v, kn.mem[..], kn.kern, kn.cr3, kn.tlb, vpn);
    if w.Some? {
      kn.tlb := kn.tlb[vpn := w.value];
    }
  }

  lemma DirInMem(v: VM, mem: seq<Page>, kern: nat, d: nat)
    requires Represents(v, mem, kern) && d in v.dirs
    ensures d < |mem|
  {
  }

  lemma FillCoherent(v: VM, mem: seq<Page>, kern: nat, cr3: nat, tlb: map<nat, Word>, vpn: nat)
    requires Inv(v) && Represents(v, mem, kern) && Coherent(v, cr3, tlb) && cr3 in v.dirs && vpn < UVPN && cr3 < |mem|
    ensures HwWalk(mem, cr3, vpn) == if Loc(cr3, vpn) in v.ptes then Some(v.ptes[Loc(cr3, vpn)]) else None
    ensures Loc(cr3, vpn) in v.ptes ==> Coherent(v, cr3, tlb[vpn := v.ptes[Loc(cr3, vpn)]])
  {
    HwWalkFlat(v, mem, kern, Loc(cr3, vpn));
    hide InvX, Represents, HwWalk;
  }

  // A user access goes through the TLB when it hits. Every hit gives what a walk would give, so
  // a store through a cached entry is a store through the flat map.
  method UserStore(kn: Kernel, vpn: nat, off: nat, x: Word)
    requires kn.Valid(multiset{}) && vpn in kn.tlb && Writable(kn.tlb[vpn]) && off < 1024
    modifies kn`v, kn.mem
    ensures kn.Valid(multiset{}) && Good(old(kn.v)) && Allowed(old(kn.v), Write(Loc(kn.cr3, vpn), off, x))
    ensures kn.v == Apply(old(kn.v), Write(Loc(kn.cr3, vpn), off, x))
  {
    hide InvX, Represents, ListRep, Small, Store, Coherent, Loaded, Apply, Allowed, Writable;
    ghost var k := Loc(kn.cr3, vpn);
    ghost var v0, m0 := kn.v, kn.mem[..];
    TlbHit(v0, kn.cr3, kn.tlb, vpn);
    var f := kn.tlb[vpn].pn;
    StoreValid(v0, k, off, x, m0, kn.kern, kn.cr3, kn.tlb);
    kn.mem[f] := kn.mem[f][off := x];
    kn.v := Store(v0, k, off, x);
    assert kn.mem[..] == m0[f := m0[f][off := x]];
  }

  lemma TlbHit(v: VM, cr3: nat, tlb: map<nat, Word>, vpn: nat)
    requires Coherent(v, cr3, tlb) && vpn in tlb
    ensures Loc(cr3, vpn) in v.ptes && v.ptes[Loc(cr3, vpn)] == tlb[vpn]
  {
  }

  lemma StoreValid(v: VM, k: Loc, off: nat, x: Word, mem: seq<Page>, kern: nat, cr3: nat, tlb: map<nat, Word>)
    requires Good(v) && Represents(v, mem, kern) && Coherent(v, cr3, tlb)
    requires k in v.ptes && Writable(v.ptes[k]) && off < 1024
    ensures Allowed(v, Write(k, off, x)) && Apply(v, Write(k, off, x)) == Store(v, k, off, x)
    ensures v.ptes[k].pn < |mem| && v.ptes[k].pn in v.data
    ensures var f, w := v.ptes[k].pn, Store(v, k, off, x);
            && Inv(w) && Small(w) && Represents(w, mem[f := mem[f][off := x]], kern) && Coherent(w, cr3, tlb)
            && w.ref == v.ref && w.free == v.free
  {
    var f := v.ptes[k].pn;
    StoreGood(v, k, off, x);
    RepData(v, mem, kern, f, mem[f][off := x]);
  }

  lemma RepData(v: VM, mem: seq<Page>, kern: nat, f: nat, p: Page)
    requires Represents(v, mem, kern) && Shape(v) && f in v.data && f < |mem|
    ensures Represents(v.(data := v.data[f := p]), mem[f := p], kern)
  {
  }
}
