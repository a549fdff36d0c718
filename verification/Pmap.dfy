/** kern/pmap.c and the memory half of kern/env.c, in place on frames and PageInfo arrays. */
module Pmap {
  import opened Words
  import opened Vm
  import opened VmInv
  import opened Teardowns
  import opened Syscalls
  import opened Tables

  // The frames page_init puts on the free list: not frame 0, MPENTRY_PADDR's page, the I/O hole
  // [IOPHYSMEM, EXTPHYSMEM), nor extended memory below boot_alloc(0).
  predicate Allocatable(i: nat, bootEnd: nat) { i != 0 && i != 7 && !(160 <= i < 256) && !(256 <= i < bootEnd) }

  function BootFree(n: nat, bootEnd: nat): seq<nat>
  {
    if n == 0 then []
    else if Allocatable(n - 1, bootEnd) then [n - 1] + BootFree(n - 1, bootEnd)
    else BootFree(n - 1, bootEnd)
  }

  // Exactly the allocatable frames, each once, in descending order.
  lemma {:induction false} BootFreeExact(n: nat, bootEnd: nat)
    ensures forall f: nat :: f in BootFree(n, bootEnd) <==> f < n && Allocatable(f, bootEnd)
    ensures forall i, j :: 0 <= i < j < |BootFree(n, bootEnd)| ==> BootFree(n, bootEnd)[i] > BootFree(n, bootEnd)[j]
  {
    if n > 0 {
      BootFreeExact(n - 1, bootEnd);
      var b := BootFree(n - 1, bootEnd);
      assert forall i :: 0 <= i < |b| ==> b[i] in b;
    }
  }

  lemma BootFreeFresh(n: nat, bootEnd: nat)
    ensures n !in BootFree(n, bootEnd)
    ensures forall i :: 0 <= i < |BootFree(n, bootEnd)| ==> BootFree(n, bootEnd)[i] < n
  {
    BootFreeExact(n, bootEnd);
    var b := BootFree(n, bootEnd);
    assert forall i :: 0 <= i < |b| ==> b[i] in b;
  }

  // The state mem_init leaves behind.
  function Boot(n: nat, bootEnd: nat): VM { VM(seq(n, _ => 0), BootFree(n, bootEnd), {}, map[], map[], map[]) }

  lemma BootGood(n: nat, bootEnd: nat)
    ensures Good(Boot(n, bootEnd))
  {
    var v := Boot(n, bootEnd);
    BootFreeExact(n, bootEnd);
    assert forall i :: 0 <= i < |v.free| ==> v.free[i] in v.free;
    forall f | 0 <= f < n
      ensures Refs(v, f) == 0
    {
      assert Maps(v.ptes, f) == {};
      assert Holds(v.tabs, f) == {};
    }
  }

  lemma BootValid(mem: seq<Page>, kern: nat, bootEnd: nat)
    requires 256 <= kern < bootEnd && kern < |mem|
    requires forall i :: 0 <= i < UPDX ==> mem[kern][i] == ZERO
    ensures var v := Boot(|mem|, bootEnd);
            Good(v) && Represents(v, mem, kern) && Coherent(v, kern, map[])
  {
    BootGood(|mem|, bootEnd);
    BootFreeExact(|mem|, bootEnd);
    var v := Boot(|mem|, bootEnd);
    assert forall i :: 0 <= i < |v.free| ==> v.free[i] in v.free;
    hide Inv, Small;
  }

  class Kernel {
    const kern: nat            // frame of kern_pgdir
    var freeList: int          // page_free_list, -1 for NULL
    const link: array<int>     // pages[].pp_link
    const refc: array<nat>     // pages[].pp_ref
    const mem: array<Page>     // physical memory, by frame
    var cr3: nat               // directory loaded by lcr3
    var cur: Option<nat>       // curenv->env_pgdir, None when curenv is NULL
    var tlb: map<nat, Word>    // translations the processor may have cached for cr3

    ghost var v: VM

    // The allocator's arrays agree with v.
    ghost predicate AllocOk()
      reads this, link, refc, mem
    {
      && link.Length == refc.Length == mem.Length == |v.ref|
      && refc[..] == v.ref
      && ListRep(freeList, link[..], v.free)
    }

    // The arrays, the page tables in memory and the TLB say what v says, be its counts right or not.
    ghost predicate Backed()
      reads this, link, refc, mem
    {
      AllocOk() && Represents(v, mem[..], kern) && Coherent(v, cr3, tlb) && Loaded(cr3, kern, cur)
    }

    // Between kernel entries x is empty.
    ghost predicate Valid(x: multiset<nat>)
      reads this, link, refc, mem
    {
      Backed() && InvX(v, x) && Small(v)
    }

    // mem_init up to page_init: all PageInfo fields are 0 and kern_pgdir is loaded.
    constructor (boot: seq<Page>, kern: nat)
      requires kern < |boot|
      ensures this.kern == kern && cr3 == kern && cur == None && tlb == map[] && freeList == -1
      ensures v == VM(seq(|boot|, _ => 0), [], {}, map[], map[], map[]) && mem[..] == boot && AllocOk()
      ensures fresh(link) && fresh(refc) && fresh(mem)
    {
      this.kern := kern;
      link := new int[|boot|](_ => -1);
      refc := new nat[|boot|](_ => 0);
      mem := new Page[|boot|](i requires 0 <= i < |boot| => boot[i]);
      cr3, cur, tlb := kern, None, map[];
      freeList := -1;
      v := VM(seq(|boot|, _ => 0), [], {}, map[], map[], map[]);
    }

    // page_init: every allocatable frame is pushed; the kernel's directory is not one, because
    // boot_alloc has used it.
    method PageInit(bootEnd: nat)
      requires AllocOk() && v == VM(seq(mem.Length, _ => 0), [], {}, map[], map[], map[])
      requires tlb == map[] && cr3 == kern && 256 <= kern < bootEnd && kern < mem.Length
      requires forall i :: 0 <= i < UPDX ==> mem[kern][i] == ZERO
      modifies this`freeList, this`v, link
      ensures Valid(multiset{})
      ensures v == Boot(mem.Length, bootEnd)
    {
      hide InvX, Represents, ListRep, Small, Coherent;
      BootValid(mem[..], kern, bootEnd);
      var i := 0;
      while i < mem.Length
        invariant 0 <= i <= mem.Length
        invariant AllocOk() && v == VM(seq(mem.Length, _ => 0), BootFree(i, bootEnd), {}, map[], map[], map[])
      {
        BootFreeFresh(i, bootEnd);
        if Allocatable(i, bootEnd) {
          ListPush(freeList, link[..], v.free, i);
          link[i] := freeList;
          freeList := i;
          v := v.(free := [i] + v.free);
        }
        i := i + 1;
      }
    }

    // page_alloc: the frame leaves the free list and has no role yet.
    method PageAlloc() returns (f: int)
      requires AllocOk() && FreeOk(v)
      modifies this`freeList, this`v, link, mem
      ensures AllocOk()
      ensures old(v.free) == [] ==> f == -1 && v == old(v) && mem[..] == old(mem[..])
      ensures old(v.free) != [] ==> f == old(v.free[0]) && v == old(v).(free := old(v.free[1..]))
      ensures old(v.free) != [] ==> 0 <= f < mem.Length && mem[..] == old(mem[..])[f := ZeroPage()]
    {
      if freeList == -1 {
        return -1;
      }
      f := freeList;
      ListPop(freeList, link[..], v.free);
      freeList := link[f];
      link[f] := -1;
      mem[f] := ZeroPage();
      v := v.(free := v.free[1..]);
    }

    // page_free. The two panics of the source are its preconditions; no caller here meets them.
    method PageFree(f: nat)
      requires AllocOk() && f < refc.Length && refc[f] == 0 && f !in v.free
      modifies this`freeList, this`v, link
      ensures AllocOk() && v == old(v).(free := [f] + old(v.free), data := old(v.data) - {f})
    {
      assert link[f] == -1;
      ListPush(freeList, link[..], v.free, f);
      link[f] := freeList;
      freeList := f;
      v := v.(free := [f] + v.free, data := v.data - {f});
    }

    method PageDecref(f: nat)
      requires AllocOk() && f < refc.Length && f !in v.free
      modifies this`freeList, this`v, link, refc
      ensures AllocOk() && v == Decref(old(v), f)
    {
      refc[f] := (refc[f] + 65535) % 65536;
      v := v.(ref := v.ref[f := Dec(v.ref[f])]);
      if refc[f] == 0 {
        PageFree(f);
      }
    }

    // pgdir_walk: the frame of the page table that holds the entry for k, -1 for NULL.
    method PgdirWalk(k: Loc, create: bool, ghost x: multiset<nat>) returns (t: int)
      requires Valid(x) && k.d in v.dirs && k.vpn < UVPN
      modifies this`freeList, this`v, link, refc, mem
      ensures Valid(x)
      ensures v == if create && CanWalk(old(v), k) then Walk(old(v), SlotOf(k)) else old(v)
      ensures t == if SlotOf(k) in v.tabs then v.tabs[SlotOf(k)] else -1
      ensures !create ==> mem[..] == old(mem[..])
    {
      var pdx := k.vpn / 1024;
      assert mem[..][k.d][pdx] == PdeWord(v, SlotOf(k));
      if mem[k.d][pdx] == ZERO && create {
        t := NewTable(k, x);
        if t != -1 {
          return;
        }
      }
      if mem[k.d][pdx] != ZERO {
        t := mem[k.d][pdx].pn;
      } else {
        t := -1;
      }
    }

    // The creating branch of pgdir_walk.
    method NewTable(k: Loc, ghost x: multiset<nat>) returns (t: int)
      requires Valid(x) && k.d in v.dirs && k.vpn < UVPN && SlotOf(k) !in v.tabs
      modifies this`freeList, this`v, link, refc, mem
      ensures Valid(x)
      ensures old(v.free) == [] ==> t == -1 && v == old(v)
      ensures old(v.free) != [] ==> t == old(v.free[0]) && v == Walk(old(v), SlotOf(k))
    {
      hide InvX, Represents, ListRep, Small, Coherent, Walk;
      ghost var v0, m0 := v, mem[..];
      WalkValid(v0, x, k, m0, kern, cr3, tlb);
      t := PageAlloc();
      if t != -1 {
        refc[t] := (refc[t] + 1) % 65536;
        mem[k.d] := mem[k.d][k.vpn / 1024 := Word(t, 7)];
        v := Walk(v0, SlotOf(k));
        assert refc[..] == v0.ref[t := Inc(v0.ref[t])];
        assert mem[..] == MemWithTable(v0, m0, SlotOf(k));
      }
    }

    // page_lookup: the frame mapped at k, -1 for NULL.
    method PageLookup(k: Loc, ghost x: multiset<nat>) returns (f: int, t: int)
      requires Valid(x) && k.d in v.dirs && k.vpn < UVPN
      modifies this`freeList, this`v, link, refc, mem
      ensures Valid(x) && v == old(v) && mem[..] == old(mem[..])
      ensures f == if k in v.ptes then v.ptes[k].pn else -1
      ensures t == if SlotOf(k) in v.tabs then v.tabs[SlotOf(k)] else -1
      ensures k in v.ptes ==> 0 <= t < mem.Length && mem[t][k.vpn % 1024] == v.ptes[k]
    {
      t := PgdirWalk(k, false, x);
      hide InvX, Represents, ListRep, Small, Coherent;
      EntryAt(v, x, k, mem[..], kern);
      if t == -1 || mem[t][k.vpn % 1024] == ZERO {
        return -1, t;
      }
      f := mem[t][k.vpn % 1024].pn;
    }

    method TlbInvalidate(k: Loc)
      modifies this`tlb
      ensures tlb == Invalidate(old(tlb), cur, k.d, k.vpn)
    {
      if cur == None || cur == Some(k.d) {
        tlb := tlb - {k.vpn};
      }
    }

    // page_remove: exactly k is unmapped, and its translation is no longer cached.
    method PageRemove(k: Loc, ghost x: multiset<nat>)
      requires Valid(x) && k.d in v.dirs && k.vpn < UVPN
      modifies this`freeList, this`v, this`tlb, link, refc, mem
      ensures Valid(x) && v == Remove(old(v), k)
      ensures tlb == if k in old(v.ptes) then Invalidate(old(tlb), cur, k.d, k.vpn) else old(tlb)
    {
      hide InvX, Represents, ListRep, Small, Coherent;
      var f, t := PageLookup(k, x);
      if f == -1 {
        return;
      }
      ghost var v0, m0 := v, mem[..];
      RemoveValid(v0, x, k, m0, kern, cr3, tlb, cur);
      PageDecref(f);
      mem[t] := mem[t][k.vpn % 1024 := ZERO];
      TlbInvalidate(k);
      v := Remove(v0, k);
      assert mem[..] == m0[t := m0[t][k.vpn % 1024 := ZERO]];
    }

    // page_insert: the update of one key that InsertFlat describes, as long as perm does not change
    // the frame number.
    method PageInsert(k: Loc, f: nat, perm: Word) returns (r: int)
      requires Valid(multiset{}) && k.d in v.dirs && k.vpn < UVPN && f in v.data && v.ref[f] < 65535
      modifies this`freeList, this`v, this`tlb, link, refc, mem
      ensures Backed() && InRange(old(v)) && (v, r) == Insert(old(v), k, f, perm)
      ensures NamesFrame(f, perm) && perm.fl & 4 != 0 ==> Valid(multiset{})
    {
      InsertValid(v, k, f, perm);
      hide InvX, Inv, Represents, ListRep, Small, Coherent, Walk, Remove;
      var t := PgdirWalk(k, true, multiset{});
      if t == -1 {
        return E_NO_MEM;
      }
      PutEntry(k, f, perm, t);
      r := 0;
    }

    // page_insert from pp_ref++ on: the old mapping goes away while f is pinned.
    method PutEntry(k: Loc, f: nat, perm: Word, t: nat)
      requires Valid(multiset{}) && k.d in v.dirs && k.vpn < UVPN && SlotOf(k) in v.tabs && t == v.tabs[SlotOf(k)]
      requires f in v.data && f < |v.ref| && v.ref[f] < 65535 && InRange(v)
      modifies this`freeList, this`v, this`tlb, link, refc, mem
      ensures Backed() && v == Put(old(v), k, f, perm)
      ensures NamesFrame(f, perm) && perm.fl & 4 != 0 ==> Valid(multiset{})
    {
      hide InvX, Represents, ListRep, Small, Coherent, Remove, InRange;
      ghost var v1 := v;
      PinValid(v1, f, mem[..], kern, cr3, tlb);
      refc[f] := (refc[f] + 1) % 65536;
      v := v1.(ref := v1.ref[f := v1.ref[f] + 1]);
      assert refc[..] == v.ref;
      PageRemove(k, multiset{f});
      ghost var v2, m2 := v, mem[..];
      GiveValid(v1, v2, k, f, perm, m2, kern, cr3, tlb);
      hide Put;
      mem[t] := mem[t][k.vpn % 1024 := PteFor(f, perm)];
      v := v2.(ptes := v2.ptes[k := PteFor(f, perm)]);
      assert mem[..] == m2[t := m2[t][k.vpn % 1024 := PteFor(f, perm)]];
    }
  }

  function MemWithTable(v: VM, mem: seq<Page>, s: Slot): (m: seq<Page>)
    requires v.free != [] && v.free[0] < |mem| && s.d < |mem| && s.pdx < 1024
  {
    var t := v.free[0];
    var m := mem[t := ZeroPage()];
    m[s.d := m[s.d][s.pdx := Word(t, 7)]]
  }

  // Everything a new page table must keep.
  lemma WalkValid(v: VM, x: multiset<nat>, k: Loc, mem: seq<Page>, kern: nat, cr3: nat, tlb: map<nat, Word>)
    requires InvX(v, x) && Small(v) && Represents(v, mem, kern) && Coherent(v, cr3, tlb)
    requires k.d in v.dirs && k.vpn < UVPN && SlotOf(k) !in v.tabs
    ensures k.d < |mem| && FreeOk(v) && k.d != kern
    ensures v.free != [] ==> var u := Walk(v, SlotOf(k));
            && v.free[0] < |mem| && v.free[0] < |v.ref| && v.free[0] != k.d
            && u.ref == v.ref[v.free[0] := Inc(v.ref[v.free[0]])] && u.free == v.free[1..]
            && InvX(u, x) && Small(u) && Represents(u, MemWithTable(v, mem, SlotOf(k)), kern)
            && Coherent(u, cr3, tlb)
  {
    if v.free != [] {
      var t := v.free[0];
      WalkKeeps(v, x, k);
      RepScratch(v, mem, kern, t, ZeroPage());
      WalkRep(v, mem[t := ZeroPage()], kern, SlotOf(k));
    }
  }

  lemma WalkRep(v: VM, mem: seq<Page>, kern: nat, s: Slot)
    requires Represents(v, mem, kern) && Shape(v) && FreeOk(v) && s !in v.tabs && s.d in v.dirs && s.pdx < UPDX
    requires v.free != [] && mem[v.free[0]] == ZeroPage()
    ensures Represents(Walk(v, s), mem[s.d := mem[s.d][s.pdx := Word(v.free[0], 7)]], kern)
  {
    var t := v.free[0];
    RepNewTable(v, mem, kern, s, t, v.(tabs := v.tabs[s := t]));
  }

  // The word page_lookup tests: non-zero exactly when the entry is present, because every
  // entry written has PTE_P.
  lemma EntryAt(v: VM, x: multiset<nat>, k: Loc, mem: seq<Page>, kern: nat)
    requires InvX(v, x) && Represents(v, mem, kern) && k.d in v.dirs && k.vpn < UVPN
    ensures SlotOf(k) in v.tabs ==>
      var t := v.tabs[SlotOf(k)];
      && t < |mem| && mem[t][k.vpn % 1024] == PteWord(v, k)
      && (mem[t][k.vpn % 1024] != ZERO <==> k in v.ptes)
    ensures k in v.ptes ==> SlotOf(k) in v.tabs
  {
    if SlotOf(k) in v.tabs {
      assert At(SlotOf(k), k.vpn % 1024) == k;
      if k in v.ptes {
        PresentOf(v.ptes[k]);
      }
    }
  }

  lemma RepDecref(v: VM, mem: seq<Page>, kern: nat, f: nat)
    requires Represents(v, mem, kern) && f < |v.ref| && f != kern
    ensures Represents(Decref(v, f), mem, kern)
  {
    var w := Decref(v, f);
    assert KernOk(w, mem, kern);
  }

  // Everything page_remove must keep.
  lemma RemoveValid(v: VM, x: multiset<nat>, k: Loc, mem: seq<Page>, kern: nat, cr3: nat, tlb: map<nat, Word>, cur: Option<nat>)
    requires InvX(v, x) && Small(v) && Represents(v, mem, kern) && Coherent(v, cr3, tlb) && Loaded(cr3, kern, cur)
    requires k in v.ptes
    ensures var f, t := v.ptes[k].pn, v.tabs[SlotOf(k)];
            && f < |v.ref| && f !in v.free && t < |mem|
            && InvX(Remove(v, k), x) && Small(Remove(v, k))
            && Represents(Remove(v, k), mem[t := mem[t][k.vpn % 1024 := ZERO]], kern)
            && Coherent(Remove(v, k), cr3, Invalidate(tlb, cur, k.d, k.vpn))
            && Remove(v, k).ref == Decref(v, f).ref && Remove(v, k).free == Decref(v, f).free
  {
    var u := v.(ptes := v.ptes - {k});
    var t := v.tabs[SlotOf(k)];
    RemoveKeeps(v, x, k);
    RepPte(v, mem, kern, k, ZERO, u);
    RepDecref(u, mem[t := mem[t][k.vpn % 1024 := ZERO]], kern, v.ptes[k].pn);
    InvalidateCoherent(v, cr3, kern, tlb, cur, k);
  }

  lemma InsertValid(v: VM, k: Loc, f: nat, perm: Word)
    requires Inv(v) && Small(v) && k.d in v.dirs && k.vpn < UVPN && f in v.data && v.ref[f] < 65535
    ensures InRange(v) && f < |v.ref|
    ensures CanWalk(v, k) ==> var u := Walk(v, SlotOf(k));
            && Inv(u) && Small(u) && f in u.data && f < |u.ref| && u.ref[f] < 65535 && SlotOf(k) in u.tabs
            && u.dirs == v.dirs && u.data == v.data && InRange(u)
    ensures !CanWalk(v, k) ==> SlotOf(k) !in v.tabs
  {
    if CanWalk(v, k) {
      WalkFlat(v, k);
    }
  }

  lemma PinValid(v: VM, f: nat, mem: seq<Page>, kern: nat, cr3: nat, tlb: map<nat, Word>)
    requires Inv(v) && Small(v) && f in v.data && f < |v.ref| && v.ref[f] < 65535
    requires Represents(v, mem, kern) && Coherent(v, cr3, tlb)
    ensures var u := v.(ref := v.ref[f := v.ref[f] + 1]);
            InvX(u, multiset{f}) && Small(u) && Represents(u, mem, kern) && Coherent(u, cr3, tlb)
    ensures Inc(v.ref[f]) == v.ref[f] + 1
  {
    hide Inv, InvX;
    PinKeeps(v, f);
    RepCounts(v, v.ref[f := v.ref[f] + 1], mem, kern);
    hide Represents;
  }

  // Memory says nothing about counts.
  lemma RepCounts(v: VM, r: seq<nat>, mem: seq<Page>, kern: nat)
    requires Represents(v, mem, kern) && |r| == |v.ref|
    ensures Represents(v.(ref := r), mem, kern)
  {
  }

  // Everything the store of the new entry must keep.
  lemma GiveValid(v: VM, v2: VM, k: Loc, f: nat, perm: Word, mem: seq<Page>, kern: nat, cr3: nat, tlb: map<nat, Word>)
    requires Inv(v) && Small(v) && k.d in v.dirs && k.vpn < UVPN && SlotOf(k) in v.tabs && InRange(v)
    requires f in v.data && f < |v.ref| && v.ref[f] < 65535
    requires v2 == Remove(v.(ref := v.ref[f := v.ref[f] + 1]), k)
    requires Represents(v2, mem, kern) && Coherent(v2, cr3, tlb)
    ensures SlotOf(k) in v2.tabs && v2.tabs[SlotOf(k)] == v.tabs[SlotOf(k)] && v2.tabs[SlotOf(k)] < |mem|
    ensures var u := v2.(ptes := v2.ptes[k := PteFor(f, perm)]);
            var t := v2.tabs[SlotOf(k)];
            && Represents(u, mem[t := mem[t][k.vpn % 1024 := PteFor(f, perm)]], kern)
            && Coherent(u, cr3, tlb) && u == Put(v, k, f, perm)
            && (NamesFrame(f, perm) && perm.fl & 4 != 0 ==> Inv(u) && Small(u))
  {
    hide InvX, Represents, Small, Coherent, Put, Remove;
    PinnedRemove(v, k, f);
    PutSteps(v, k, f, perm);
    PteNonZero(perm.fl);
    GiveRep(v2, multiset{f}, k, PteFor(f, perm), mem, kern, cr3, tlb);
    if NamesFrame(f, perm) && perm.fl & 4 != 0 {
      PutKeeps(v, k, f, perm);
    }
  }

  lemma GiveRep(v: VM, x: multiset<nat>, k: Loc, w: Word, mem: seq<Page>, kern: nat, cr3: nat, tlb: map<nat, Word>)
    requires InvX(v, x) && Represents(v, mem, kern) && Coherent(v, cr3, tlb)
    requires k !in v.ptes && SlotOf(k) in v.tabs && w != ZERO
    ensures var u, t := v.(ptes := v.ptes[k := w]), v.tabs[SlotOf(k)];
            t < |mem| && Represents(u, mem[t := mem[t][k.vpn % 1024 := w]], kern) && Coherent(u, cr3, tlb)
  {
    RepPte(v, mem, kern, k, w, v.(ptes := v.ptes[k := w]));
    hide InvX, Represents;
  }

  lemma PteNonZero(fl: bv12)
    ensures fl | PTE_P != 0
  {
  }
}
