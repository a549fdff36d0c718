/** The page system calls of kern/syscall.c over many address spaces, and what every run of them keeps. */
module Syscalls {
  import opened Words
  import opened Vm
  import opened VmInv
  import opened Teardowns

  const UTOP := UVPN * PGSIZE

  // check_perm(perm, NULL); 0x1F8 is ~PTE_SYSCALL in 12 bits.
  predicate PermOk(perm: Word)
  {
    perm.pn == 0 && perm.fl & 0x1F8 == 0 && perm.fl & PTE_P != 0 && perm.fl & PTE_U != 0
  }

  predicate BadVa(va: nat) { va >= UTOP || va % PGSIZE != 0 }

  // perm | PTE_U | PTE_P
  function UserPerm(perm: Word): Word { Word(perm.pn, perm.fl | 5) }

  // env_page_alloc: the frame is not returned when page_insert fails.
  function EnvPageAlloc(v: VM, k: Loc, perm: Word): (w: (VM, int))
    requires InRange(v)
  {
    if !PermOk(perm) then (v, E_INVAL)
    else if v.free == [] then (v, E_NO_MEM)
    else Insert(PageAlloc(v), k, v.free[0], perm)
  }

  // env_page_map: no check_perm, so any bit of perm reaches the entry.
  function EnvPageMap(v: VM, src: Loc, dst: Loc, perm: Word): (w: (VM, int))
    requires InRange(v)
  {
    if src !in v.ptes then (v, E_INVAL)
    else if Writable(perm) && !Writable(v.ptes[src]) then (v, E_INVAL)
    else Insert(v, dst, v.ptes[src].pn, perm)
  }

  function SysPageAlloc(v: VM, d: nat, va: nat, perm: Word): (w: (VM, int))
    requires InRange(v)
  {
    if BadVa(va) then (v, E_INVAL) else EnvPageAlloc(v, Loc(d, va / PGSIZE), UserPerm(perm))
  }

  function SysPageMap(v: VM, sd: nat, sva: nat, dd: nat, dva: nat, perm: Word): (w: (VM, int))
    requires InRange(v)
  {
    if BadVa(sva) || BadVa(dva) then (v, E_INVAL)
    else EnvPageMap(v, Loc(sd, sva / PGSIZE), Loc(dd, dva / PGSIZE), UserPerm(perm))
  }

  function SysPageUnmap(v: VM, d: nat, va: nat): (w: (VM, int))
    requires InRange(v)
  {
    if BadVa(va) then (v, E_INVAL) else (Remove(v, Loc(d, va / PGSIZE)), 0)
  }

  // The memory half of env_alloc.
  function Create(v: VM): (w: (VM, int))
    requires InRange(v)
  {
    if v.free == [] then (v, E_NO_MEM) else (NewDir(v), 0)
  }

  // A user store through a writable entry.
  function Store(v: VM, k: Loc, off: nat, x: Word): (w: VM)
    requires k in v.ptes && v.ptes[k].pn in v.data && off < 1024
  {
    var f := v.ptes[k].pn;
    v.(data := v.data[f := v.data[f][off := x]])
  }

  datatype Op =
    | Alloc(d: nat, va: nat, perm: Word)
    | Map(sd: nat, sva: nat, dd: nat, dva: nat, perm: Word)
    | Unmap(d: nat, va: nat)
    | NewEnv
    | EndEnv(d: nat)
    | Write(k: Loc, off: nat, x: Word)

  // sys_page_map gets as far as storing the new entry.
  predicate MapDone(v: VM, sd: nat, sva: nat, dd: nat, dva: nat, perm: Word) {
    var src, dst := Loc(sd, sva / PGSIZE), Loc(dd, dva / PGSIZE);
    && !BadVa(sva) && !BadVa(dva) && src in v.ptes && (Writable(perm) ==> Writable(v.ptes[src]))
    && CanWalk(v, dst)
  }

  // The entry it stores names the page it found, and the page's 16-bit count has room for it.
  predicate MapSound(v: VM, sd: nat, sva: nat, dd: nat, dva: nat, perm: Word) {
    MapDone(v, sd, sva, dd, dva, perm) ==>
      var f := v.ptes[Loc(sd, sva / PGSIZE)].pn;
      NamesFrame(f, perm) && Fits(v, Loc(dd, dva / PGSIZE), f)
  }

  // The address spaces named exist, and a mapping is a sound one (MapKeepsIff).
  ghost predicate Allowed(v: VM, op: Op)
  {
    match op
    case Alloc(d, va, perm) => d in v.dirs
    case Map(sd, sva, dd, dva, perm) =>
      sd in v.dirs && dd in v.dirs && MapSound(v, sd, sva, dd, dva, perm)
    case Unmap(d, va) => d in v.dirs
    case NewEnv => true
    case EndEnv(d) => d in v.dirs
    case Write(k, off, x) => k in v.ptes && Writable(v.ptes[k]) && off < 1024
  }

  ghost predicate Good(v: VM) { Inv(v) && Small(v) }

  ghost function Apply(v: VM, op: Op): (w: VM)
    requires Good(v) && Allowed(v, op)
  {
    match op
    case Alloc(d, va, perm) => SysPageAlloc(v, d, va, perm).0
    case Map(sd, sva, dd, dva, perm) => SysPageMap(v, sd, sva, dd, dva, perm).0
    case Unmap(d, va) => SysPageUnmap(v, d, va).0
    case NewEnv => Create(v).0
    case EndEnv(d) => Teardown(v, d)
    case Write(k, off, x) => Store(v, k, off, x)
  }

  // ---- Each call keeps the counts and the pool ----

  // The frame a new page takes is mapped nowhere.
  lemma AllocGood(v: VM)
    requires Good(v) && v.free != []
    ensures Good(PageAlloc(v)) && Pool(PageAlloc(v)) == Pool(v)
    ensures v.free[0] in PageAlloc(v).data && PageAlloc(v).ref[v.free[0]] == 0
  {
    AllocKeeps(v, multiset{});
    FreeUnreferenced(v, 0);
    assert v.free == [v.free[0]] + v.free[1..];
  }

  lemma UserPermFlags(perm: Word)
    ensures UserPerm(perm).fl & 4 != 0 && UserPerm(perm).fl & 5 == 5 && UserPerm(perm).fl | PTE_P == UserPerm(perm).fl
    ensures Writable(UserPerm(perm)) == Writable(perm) && Cow(UserPerm(perm)) == Cow(perm)
  {
  }

  lemma PermOkUser(perm: Word)
    requires PermOk(perm)
    ensures perm.fl & 4 != 0
  {
  }

  lemma SysPageAllocGood(v: VM, d: nat, va: nat, perm: Word)
    requires Good(v) && d in v.dirs
    ensures Good(SysPageAlloc(v, d, va, perm).0) && Pool(SysPageAlloc(v, d, va, perm).0) == Pool(v)
  {
    if !BadVa(va) && PermOk(UserPerm(perm)) && v.free != [] {
      AllocGood(v);
      UserPermFlags(perm);
      InsertFlat(PageAlloc(v), Loc(d, va / PGSIZE), v.free[0], UserPerm(perm));
    }
  }

  lemma SysPageMapGood(v: VM, sd: nat, sva: nat, dd: nat, dva: nat, perm: Word)
    requires Good(v) && Allowed(v, Map(sd, sva, dd, dva, perm))
    ensures Good(SysPageMap(v, sd, sva, dd, dva, perm).0) && Pool(SysPageMap(v, sd, sva, dd, dva, perm).0) == Pool(v)
  {
    hide InvX, Small, Pool, Put, Walk, Fits, Writable;
    MapSteps(v, sd, sva, dd, dva, perm);
    if MapDone(v, sd, sva, dd, dva, perm) {
      UserPermFlags(perm);
      InsertFlat(v, Loc(dd, dva / PGSIZE), v.ptes[Loc(sd, sva / PGSIZE)].pn, UserPerm(perm));
    }
  }

  // The call is page_insert of the page found, or nothing.
  lemma MapSteps(v: VM, sd: nat, sva: nat, dd: nat, dva: nat, perm: Word)
    requires Good(v) && sd in v.dirs && dd in v.dirs
    ensures InRange(v)
    ensures var (w, r) := SysPageMap(v, sd, sva, dd, dva, perm); var src, dst := Loc(sd, sva / PGSIZE), Loc(dd, dva / PGSIZE);
            if MapDone(v, sd, sva, dd, dva, perm) then
              && dst.d in v.dirs && dst.vpn < UVPN
              && v.ptes[src].pn in v.data && v.ptes[src].pn < |v.ref| && v.ref[v.ptes[src].pn] > 0
              && (w, r) == Insert(v, dst, v.ptes[src].pn, UserPerm(perm)) && r == 0
            else w == v && r < 0
  {
    var src := Loc(sd, sva / PGSIZE);
    hide Put, Walk, Small;
    UserPermFlags(perm);
    if src in v.ptes {
      assert src in Maps(v.ptes, v.ptes[src].pn);
      DataRef(v, v.ptes[src].pn);
    }
  }

  // The documentation of sys_page_map refuses an inappropriate perm, but env_page_map does not
  // look: bits above the low 12 end up in the frame number, and a page's count may wrap around.
  // Counts and structure stay exact if and only if neither happens.
  lemma MapKeepsIff(v: VM, sd: nat, sva: nat, dd: nat, dva: nat, perm: Word)
    requires Good(v) && sd in v.dirs && dd in v.dirs
    ensures InRange(v)
    ensures Good(SysPageMap(v, sd, sva, dd, dva, perm).0) <==> MapSound(v, sd, sva, dd, dva, perm)
  {
    hide InvX, Small, Put, Walk, Fits, Writable;
    MapSteps(v, sd, sva, dd, dva, perm);
    if MapSound(v, sd, sva, dd, dva, perm) {
      SysPageMapGood(v, sd, sva, dd, dva, perm);
    } else {
      var src, dst := Loc(sd, sva / PGSIZE), Loc(dd, dva / PGSIZE);
      var f := v.ptes[src].pn;
      WalkFlat(v, dst);
      var u := Walk(v, SlotOf(dst));
      GoodInRange(u);
      FitsWalk(v, dst, f);
      PutBreaks(u, dst, f, UserPerm(perm));
    }
  }

  lemma GoodInRange(v: VM)
    requires Good(v)
    ensures InRange(v)
  {
  }

  lemma FitsWalk(v: VM, k: Loc, f: nat)
    requires Good(v) && k.d in v.dirs && k.vpn < UVPN && CanWalk(v, k) && f in v.data && f < |v.ref|
    ensures Fits(Walk(v, SlotOf(k)), k, f) == Fits(v, k, f)
  {
    WalkFlat(v, k);
  }

  lemma CreateGood(v: VM)
    requires Good(v)
    ensures Good(Create(v).0) && Pool(Create(v).0) == Pool(v)
  {
    if v.free != [] {
      FreeUnreferenced(v, 0);
      assert v.free == [v.free[0]] + v.free[1..];
      NewDirKeeps(v);
    }
  }

  lemma NewDirKeeps(v: VM)
    requires Inv(v) && v.free != [] && v.ref[v.free[0]] == 0
    ensures Inv(NewDir(v))
  {
    var w := NewDir(v);
    var d := v.free[0];
    assert w.ref == v.ref[d := 1];
    Unreferenced(v, d);
    forall f | 0 <= f < |w.ref|
      ensures w.ref[f] == Refs(w, f) + multiset{}[f]
    {
    }
  }

  lemma StoreGood(v: VM, k: Loc, off: nat, x: Word)
    requires Good(v) && k in v.ptes && off < 1024
    ensures Good(Store(v, k, off, x)) && Pool(Store(v, k, off, x)) == Pool(v)
  {
    var w := Store(v, k, off, x);
    assert w.data.Keys == v.data.Keys;
    assert forall f :: 0 <= f < |v.ref| ==> Refs(w, f) == Refs(v, f);
  }

  lemma ApplyGood(v: VM, op: Op)
    requires Good(v) && Allowed(v, op)
    ensures Good(Apply(v, op)) && Pool(Apply(v, op)) == Pool(v)
  {
    match op
    case Alloc(d, va, perm) => SysPageAllocGood(v, d, va, perm);
    case Map(sd, sva, dd, dva, perm) => SysPageMapGood(v, sd, sva, dd, dva, perm);
    case Unmap(d, va) => RemoveTorn(v, Loc(d, va / PGSIZE));
    case NewEnv => CreateGood(v);
    case EndEnv(d) => TeardownTorn(v, d);
    case Write(k, off, x) => StoreGood(v, k, off, x);
  }

  // ---- Runs ----

  // Every operation of the list is allowed where it happens.
  ghost predicate Legal(v: VM, ops: seq<Op>)
    requires Good(v)
    decreases |ops|
  {
    ops == [] || (Allowed(v, ops[0]) && (ApplyGood(v, ops[0]); Legal(Apply(v, ops[0]), ops[1..])))
  }

  // The state after a run: every reachable state has exact counts and a sound free list, and
  // the frames it accounts for are the ones the run started with.
  ghost function Exec(v: VM, ops: seq<Op>): (w: VM)
    requires Good(v) && Legal(v, ops)
    ensures Good(w) && Pool(w) == Pool(v)
    decreases |ops|
  {
    if ops == [] then v
    else
      ApplyGood(v, ops[0]);
      Exec(Apply(v, ops[0]), ops[1..])
  }

  // ---- Write rights never grow ----

  // f is mapped, and nowhere writable.
  ghost predicate ReadOnly(v: VM, f: nat)
  {
    f in v.data && Maps(v.ptes, f) != {} && NoWriter(v, f)
  }

  predicate NoWriter(v: VM, f: nat) { forall k :: k in v.ptes && v.ptes[k].pn == f ==> !Writable(v.ptes[k]) }

  // In w no entry allows writes to f, and f holds what it held in v unless its count fell to 0.
  ghost predicate Guarded(v: VM, w: VM, f: nat)
  {
    && |w.ref| == |v.ref| && f < |v.ref| && f in v.data && NoWriter(w, f)
    && (w.ref[f] == 0 || (f in w.data && w.data[f] == v.data[f]))
  }

  lemma DataRef(v: VM, f: nat)
    requires Inv(v) && f in v.data
    ensures InRange(v) && f < |v.ref| && v.ref[f] == |Maps(v.ptes, f)|
  {
    assert Holds(v.tabs, f) == {};
  }

  // Only entries taken away or left alone, and no other entry of f made writable.
  lemma GuardedBy(v: VM, w: VM, f: nat)
    requires Good(v) && ReadOnly(v, f) && Content(v, w) && NoWriter(w, f)
    ensures Guarded(v, w, f)
  {
    DataRef(v, f);
  }

  lemma OrPresent(g: nat, perm: Word)
    ensures Writable(Word(g, perm.fl | PTE_P)) == Writable(perm)
    ensures Cow(Word(g, perm.fl | PTE_P)) == Cow(perm)
  {
  }

  // page_insert keeps the contents of every page that it does not free.
  lemma PutData(v: VM, k: Loc, g: nat, perm: Word, f: nat)
    requires g < |v.ref| && f < |v.ref| && f in v.data && (k in v.ptes ==> v.ptes[k].pn < |v.ref|)
    ensures var w := Put(v, k, g, perm);
            |w.ref| == |v.ref| && (w.ref[f] == 0 || (f in w.data && w.data[f] == v.data[f]))
  {
  }

  lemma PutWriter(v: VM, k: Loc, g: nat, perm: Word, f: nat)
    requires NoWriter(v, f) && g < |v.ref| && (k in v.ptes ==> v.ptes[k].pn < |v.ref|)
    ensures NoWriter(Put(v, k, g, perm), f) <==> !(Writable(perm) && BitOr(g, perm.pn) == f)
  {
    OrPresent(BitOr(g, perm.pn), perm);
    var w := Put(v, k, g, perm);
    assert w.ptes[k] == PteFor(g, perm);
  }

  // page_insert makes f writable exactly when the entry it stores is writable and names f.
  lemma InsertGuards(v: VM, k: Loc, g: nat, perm: Word, f: nat)
    requires Good(v) && ReadOnly(v, f) && InRange(v)
    requires k.d in v.dirs && k.vpn < UVPN && g in v.data && g < |v.ref|
    ensures Guarded(v, Insert(v, k, g, perm).0, f) <==> !(CanWalk(v, k) && Writable(perm) && BitOr(g, perm.pn) == f)
  {
    hide Inv, Small, Put, Walk, NoWriter, Writable, InRange;
    DataRef(v, f);
    if CanWalk(v, k) {
      WalkFlat(v, k);
      var u := Walk(v, SlotOf(k));
      GoodInRange(u);
      InsertIs(v, k, g, perm);
      NoWriterSame(v, u, f);
      PutData(u, k, g, perm, f);
      PutWriter(u, k, g, perm, f);
    }
  }

  lemma NoWriterSame(v: VM, w: VM, f: nat)
    requires NoWriter(v, f) && w.ptes == v.ptes
    ensures NoWriter(w, f)
  {
  }

  lemma InsertIs(v: VM, k: Loc, g: nat, perm: Word)
    requires InRange(v) && g < |v.ref| && CanWalk(v, k) && InRange(Walk(v, SlotOf(k)))
    ensures g < |Walk(v, SlotOf(k)).ref| && Insert(v, k, g, perm) == (Put(Walk(v, SlotOf(k)), k, g, perm), 0)
    ensures k in Walk(v, SlotOf(k)).ptes ==> Walk(v, SlotOf(k)).ptes[k].pn < |Walk(v, SlotOf(k)).ref|
  {
  }

  lemma SysPageAllocGuards(v: VM, d: nat, va: nat, perm: Word, f: nat)
    requires Good(v) && d in v.dirs && ReadOnly(v, f)
    ensures Guarded(v, SysPageAlloc(v, d, va, perm).0, f)
  {
    DataRef(v, f);
    if !BadVa(va) && PermOk(UserPerm(perm)) && v.free != [] {
      AllocGood(v);
      UserPermFlags(perm);
      assert v.free[0] != f;
      GoodInRange(PageAlloc(v));
      BitOrZero(v.free[0]);
      InsertGuards(PageAlloc(v), Loc(d, va / PGSIZE), v.free[0], UserPerm(perm), f);
    }
  }

  // Write access is meant to be handed on only from an entry that has it. A page that nobody may
  // write to becomes writable exactly when a call that goes through asks for write access and the
  // high bits of perm turn the number of the page found, which is writable, into this page's.
  lemma MapGuardsIff(v: VM, sd: nat, sva: nat, dd: nat, dva: nat, perm: Word, f: nat)
    requires Good(v) && sd in v.dirs && dd in v.dirs && ReadOnly(v, f)
    ensures InRange(v)
    ensures Guarded(v, SysPageMap(v, sd, sva, dd, dva, perm).0, f) <==>
            !(MapDone(v, sd, sva, dd, dva, perm) && Writable(perm) && BitOr(v.ptes[Loc(sd, sva / PGSIZE)].pn, perm.pn) == f)
  {
    hide Inv, Small, Insert, NoWriter, Writable, InRange;
    MapSteps(v, sd, sva, dd, dva, perm);
    DataRef(v, f);
    UserPermFlags(perm);
    if MapDone(v, sd, sva, dd, dva, perm) {
      InsertGuards(v, Loc(dd, dva / PGSIZE), v.ptes[Loc(sd, sva / PGSIZE)].pn, UserPerm(perm), f);
    }
  }

  // A sound call hands on no more than it finds.
  lemma SysPageMapGuards(v: VM, sd: nat, sva: nat, dd: nat, dva: nat, perm: Word, f: nat)
    requires Good(v) && Allowed(v, Map(sd, sva, dd, dva, perm)) && ReadOnly(v, f)
    ensures Guarded(v, SysPageMap(v, sd, sva, dd, dva, perm).0, f)
  {
    hide Inv, Small, SysPageMap, Guarded, Fits;
    MapGuardsIff(v, sd, sva, dd, dva, perm, f);
  }

  lemma CreateGuards(v: VM, f: nat)
    requires Good(v) && ReadOnly(v, f)
    ensures Guarded(v, Create(v).0, f)
  {
    DataRef(v, f);
  }

  lemma StoreGuards(v: VM, k: Loc, off: nat, x: Word, f: nat)
    requires Good(v) && Allowed(v, Write(k, off, x)) && ReadOnly(v, f)
    ensures Guarded(v, Store(v, k, off, x), f)
  {
    DataRef(v, f);
    assert v.ptes[k].pn != f;
  }

  lemma ApplyGuards(v: VM, op: Op, f: nat)
    requires Good(v) && Allowed(v, op) && ReadOnly(v, f)
    ensures Guarded(v, Apply(v, op), f)
  {
    ApplyGood(v, op);
    match op
    case Alloc(d, va, perm) => SysPageAllocGuards(v, d, va, perm, f);
    case Map(sd, sva, dd, dva, perm) => SysPageMapGuards(v, sd, sva, dd, dva, perm, f);
    case Unmap(d, va) =>
      RemoveTorn(v, Loc(d, va / PGSIZE));
      GuardedBy(v, Apply(v, op), f);
    case NewEnv => CreateGuards(v, f);
    case EndEnv(d) =>
      TeardownTorn(v, d);
      GuardedBy(v, Apply(v, op), f);
    case Write(k, off, x) => StoreGuards(v, k, off, x, f);
  }

  // The count of f is positive before every operation of the run.
  ghost predicate StaysMapped(v: VM, ops: seq<Op>, f: nat)
    requires Good(v) && Legal(v, ops) && f < |v.ref|
    decreases |ops|
  {
    ops == [] || (v.ref[f] > 0 && (ApplyGood(v, ops[0]);
      f < |Apply(v, ops[0]).ref| && StaysMapped(Apply(v, ops[0]), ops[1..], f)))
  }

  // In every run, a page that is mapped and nowhere writable keeps its contents and gets no
  // writable mapping for as long as its count does not reach 0.
  lemma {:induction false} ReadOnlyForever(v: VM, ops: seq<Op>, f: nat)
    requires Good(v) && Legal(v, ops) && ReadOnly(v, f) && f < |v.ref| && StaysMapped(v, ops, f)
    ensures Guarded(v, Exec(v, ops), f)
    decreases |ops|
  {
    DataRef(v, f);
    if ops != [] {
      ApplyGood(v, ops[0]);
      ApplyGuards(v, ops[0], f);
      var u := Apply(v, ops[0]);
      if ops[1..] == [] {
      } else {
        DataRef(u, f);
        ReadOnlyForever(u, ops[1..], f);
      }
    }
  }
}
