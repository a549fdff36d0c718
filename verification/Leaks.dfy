/** Where a caller of page_insert departs from the documentation: the frame env_page_alloc drops when its page table cannot be had. */
module Leaks {
  import opened Words
  import opened Vm
  import opened VmInv
  import opened Teardowns
  import opened Syscalls

  // Frames handed out, mapped nowhere and not on the free list: nobody can give them back.
  ghost function Leaked(v: VM): set<nat> { set f | f in v.data && f < |v.ref| && v.ref[f] == 0 }

  // When the last environment is gone, the free list holds every frame except the leaked ones.
  lemma AllReturned(v: VM)
    requires Good(v) && v.dirs == {}
    ensures (set f | f in v.free) == Pool(v) - Leaked(v)
  {
    assert v.tabs.Values == {};
    forall f | f in v.data ensures f in Leaked(v) {
      assert Maps(v.ptes, f) == {};
      DataRef(v, f);
    }
  }

  // No operation that keeps pages' contents and maps no leaked frame changes the leaked frames.
  lemma LeakedSame(v: VM, w: VM)
    requires Good(v) && Good(w) && Content(v, w)
    requires forall f, k :: f in Leaked(v) && k in w.ptes ==> w.ptes[k].pn != f
    ensures Leaked(w) == Leaked(v)
  {
    forall f | f in Leaked(v) ensures f in Leaked(w) {
      assert Maps(w.ptes, f) == {};
      DataRef(w, f);
    }
  }

  lemma LeakedUnmapped(v: VM, f: nat, k: Loc)
    requires Good(v) && f in Leaked(v) && k in v.ptes
    ensures v.ptes[k].pn != f
  {
    DataRef(v, f);
    assert v.ptes[k].pn == f ==> k in Maps(v.ptes, f);
  }

  lemma InsertLeaks(v: VM, k: Loc, g: nat, perm: Word)
    requires Good(v) && k.d in v.dirs && k.vpn < UVPN && g in v.data && Fits(v, k, g)
    requires NamesFrame(g, perm) && perm.fl & 4 != 0
    ensures Leaked(Insert(v, k, g, perm).0) == if CanWalk(v, k) then Leaked(v) - {g} else Leaked(v)
  {
    hide Inv, Small, Pool, Insert;
    DataRef(v, g);
    InsertFlat(v, k, g, perm);
    var w := Insert(v, k, g, perm).0;
    if CanWalk(v, k) {
      assert w.ptes[k].pn == g && k in Maps(w.ptes, g);
      DataRef(w, g);
      assert g !in Leaked(w);
      forall f | f in Leaked(v) && f != g ensures f in Leaked(w) {
        DataRef(v, f);
        assert Maps(v.ptes, f) == {};
        assert forall q :: q in v.ptes && v.ptes[q].pn == f ==> q in Maps(v.ptes, f);
        assert Maps(w.ptes, f) == {};
        DataRef(w, f);
      }
    }
  }

  predicate TableMissing(v: VM, k: Loc) { SlotOf(k) !in v.tabs && |v.free| == 1 }

  // env_page_alloc loses a frame exactly when the last free frame becomes the page and none is
  // left for the page table; then it loses that frame.
  lemma EnvPageAllocLeaks(v: VM, k: Loc, perm: Word)
    requires Good(v) && k.d in v.dirs && k.vpn < UVPN
    ensures var (w, r) := EnvPageAlloc(v, k, perm);
            if PermOk(perm) && TableMissing(v, k)
            then r == E_NO_MEM && Leaked(w) == Leaked(v) + {v.free[0]} && v.free[0] !in Leaked(v)
            else Leaked(w) == Leaked(v)
  {
    if PermOk(perm) && v.free != [] {
      AllocGood(v);
      var u := PageAlloc(v);
      var p := v.free[0];
      assert Leaked(u) == Leaked(v) + {p};
      PermOkUser(perm);
      InsertLeaks(u, k, p, perm);
      assert CanWalk(u, k) <==> !TableMissing(v, k);
    }
  }

  lemma ShrunkLeaks(v: VM, w: VM)
    requires Good(v) && Torn(v, w)
    requires forall k :: k in w.ptes ==> k in v.ptes && w.ptes[k] == v.ptes[k]
    ensures Leaked(w) == Leaked(v)
  {
    forall f, k | f in Leaked(v) && k in w.ptes ensures w.ptes[k].pn != f {
      LeakedUnmapped(v, f, k);
    }
    LeakedSame(v, w);
  }

  lemma RemoveLeaks(v: VM, k: Loc)
    requires Good(v)
    ensures InRange(v) && Leaked(Remove(v, k)) == Leaked(v)
  {
    RemoveTorn(v, k);
    ShrunkLeaks(v, Remove(v, k));
  }

  lemma TeardownLeaks(v: VM, d: nat)
    requires Good(v) && d in v.dirs
    ensures InRange(v) && d < |v.ref| && Leaked(Teardown(v, d)) == Leaked(v)
  {
    TeardownTorn(v, d);
    ShrunkLeaks(v, Teardown(v, d));
  }

  lemma SysPageMapLeaks(v: VM, sd: nat, sva: nat, dd: nat, dva: nat, perm: Word)
    requires Good(v) && Allowed(v, Map(sd, sva, dd, dva, perm))
    ensures Leaked(SysPageMap(v, sd, sva, dd, dva, perm).0) == Leaked(v)
  {
    hide InvX, Small, Insert, Fits, Writable;
    MapSteps(v, sd, sva, dd, dva, perm);
    var src := Loc(sd, sva / PGSIZE);
    if MapDone(v, sd, sva, dd, dva, perm) {
      UserPermFlags(perm);
      InsertLeaks(v, Loc(dd, dva / PGSIZE), v.ptes[src].pn, UserPerm(perm));
      forall f | f in Leaked(v) ensures f != v.ptes[src].pn {
        LeakedUnmapped(v, f, src);
      }
    }
  }

  // Over any operation: the only frames lost are those of a failed env_page_alloc.
  lemma ApplyLeaks(v: VM, op: Op)
    requires Good(v) && Allowed(v, op)
    ensures Leaked(Apply(v, op)) ==
            if op.Alloc? && !BadVa(op.va) && PermOk(UserPerm(op.perm)) && TableMissing(v, Loc(op.d, op.va / PGSIZE))
            then Leaked(v) + {v.free[0]} else Leaked(v)
  {
    hide Inv, SysPageAlloc, EnvPageAlloc, SysPageMap, Teardown, Remove, Torn;
    match op
    case Alloc(d, va, perm) => SysPageAllocLeaks(v, d, va, perm);
    case Map(sd, sva, dd, dva, perm) => SysPageMapLeaks(v, sd, sva, dd, dva, perm);
    case Unmap(d, va) => RemoveLeaks(v, Loc(d, va / PGSIZE));
    case NewEnv => CreateLeaks(v);
    case EndEnv(d) => TeardownLeaks(v, d);
    case Write(k, off, x) => StoreLeaks(v, k, off, x);
  }

  lemma SysPageAllocLeaks(v: VM, d: nat, va: nat, perm: Word)
    requires Good(v) && d in v.dirs
    ensures Leaked(SysPageAlloc(v, d, va, perm).0) ==
            if !BadVa(va) && PermOk(UserPerm(perm)) && TableMissing(v, Loc(d, va / PGSIZE))
            then Leaked(v) + {v.free[0]} else Leaked(v)
  {
    if !BadVa(va) {
      EnvPageAllocLeaks(v, Loc(d, va / PGSIZE), UserPerm(perm));
    }
  }

  lemma CreateLeaks(v: VM)
    requires Good(v)
    ensures Leaked(Create(v).0) == Leaked(v)
  {
  }

  lemma StoreLeaks(v: VM, k: Loc, off: nat, x: Word)
    requires Good(v) && Allowed(v, Write(k, off, x))
    ensures Leaked(Store(v, k, off, x)) == Leaked(v)
  {
  }
}
