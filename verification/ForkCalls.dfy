/** fork and pgfault as user programs run them: loops over page numbers that issue system calls. */
module ForkCalls {
  import opened Words
  import opened Vm
  import opened VmInv
  import opened Teardowns
  import opened Syscalls
  import opened Tables
  import opened Pmap
  import opened KernelCalls
  import C = CowFork

  // uvpd[i], read through the mapping of the directory onto itself.
  method ReadUvpd(kn: Kernel, d: nat, i: nat) returns (w: Word)
    requires kn.Valid(multiset{}) && d in kn.v.dirs && i < UPDX
    ensures w == PdeWord(kn.v, Slot(d, i))
  {
    UvptReads(kn.v, kn.mem[..], kn.kern, Loc(d, 0));
    assert kn.mem[..][d][i] == PdeWord(kn.v, Slot(d, i));
    hide InvX, ListRep, Small, Coherent;
    var t := HwWalk(kn.mem[..], d, 1024 * UVPT_PDX + UVPT_PDX);
    w := kn.mem[t.value.pn][i];
  }

  // uvpt[n], which can be read when the table of n exists.
  method ReadUvpt(kn: Kernel, k: Loc) returns (w: Word)
    requires kn.Valid(multiset{}) && k.d in kn.v.dirs && k.vpn < UVPN && SlotOf(k) in kn.v.tabs
    ensures w == PteWord(kn.v, k)
  {
    UvptReads(kn.v, kn.mem[..], kn.kern, k);
    hide InvX, ListRep, Small, Coherent, Represents, HwWalk;
    var t := HwWalk(kn.mem[..], k.d, 1024 * UVPT_PDX + k.vpn / 1024);
    w := kn.mem[t.value.pn][k.vpn % 1024];
  }

  // memmove(PFTEMP, addr, PGSIZE) in address space dst.d.
  method CopyPageM(kn: Kernel, dst: Loc, src: Loc)
    requires kn.Valid(multiset{}) && dst in kn.v.ptes && src in kn.v.ptes
    modifies kn`v, kn.mem
    ensures kn.Valid(multiset{}) && C.Mapped(old(kn.v)) && kn.v == C.CopyPage(old(kn.v), dst, src)
  {
    hide InvX, ListRep, Small, Coherent, Represents;
    ghost var v0, m0 := kn.v, kn.mem[..];
    var f, g := FrameOf(kn, dst), FrameOf(kn, src);
    CopyValid(v0, dst, src, m0, kn.kern, kn.cr3, kn.tlb);
    kn.mem[f] := kn.mem[g];
    kn.v := C.CopyPage(v0, dst, src);
    assert kn.mem[..] == m0[f := m0[g]];
  }

  // The frame the hardware finds for a mapped page.
  function FrameOf(kn: Kernel, k: Loc): (f: nat)
    requires kn.Valid(multiset{}) && k in kn.v.ptes
    reads kn, kn.link, kn.refc, kn.mem
    ensures f == kn.v.ptes[k].pn && f < kn.mem.Length
  {
    HwWalkFlat(kn.v, kn.mem[..], kn.kern, k);
    HwWalk(kn.mem[..], k.d, k.vpn).value.pn
  }

  lemma CopyValid(v: VM, dst: Loc, src: Loc, mem: seq<Page>, kern: nat, cr3: nat, tlb: map<nat, Word>)
    requires Good(v) && Represents(v, mem, kern) && Coherent(v, cr3, tlb) && dst in v.ptes && src in v.ptes
    ensures C.Mapped(v) && v.ptes[dst].pn < |mem| && v.ptes[src].pn < |mem|
    ensures var w := C.CopyPage(v, dst, src);
            && Good(w) && Represents(w, mem[v.ptes[dst].pn := mem[v.ptes[src].pn]], kern) && Coherent(w, cr3, tlb)
            && w.ref == v.ref && w.free == v.free
  {
    C.CopyGood(v, dst, src);
    RepData(v, mem, kern, v.ptes[dst].pn, mem[v.ptes[src].pn]);
  }

  // pgfault for a write fault at page n of the running environment d; false is a panic.
  method Pgfault(kn: Kernel, d: nat, n: nat) returns (ok: bool)
    requires kn.Valid(multiset{}) && d in kn.v.dirs && Loc(d, n) in kn.v.ptes && n != C.PFTEMP
    modifies kn`freeList, kn`v, kn`tlb, kn.link, kn.refc, kn.mem
    ensures kn.Valid(multiset{}) && Good(old(kn.v))
    ensures C.Pgfault(old(kn.v), d, n) == if ok then C.Ok(kn.v) else C.Stop
  {
    hide InvX, ListRep, Small, Coherent, Represents, SysPageAlloc, SysPageMap, SysPageUnmap, InRange, Content, CanWalk, C.CopyPage;
    ghost var v0 := kn.v;
    var src, tmp := Loc(d, n), Loc(d, C.PFTEMP);
    C.SrcFacts(v0, src);
    C.AllocAt(v0, d, C.PFTEMP);
    TableOf(v0, src);
    var pte := ReadUvpt(kn, src);
    if C.Guard(2, pte) {
      return false;
    }
    var r := SysPageAllocM(kn, d, C.PFTEMP * PGSIZE, C.PUW);
    if r < 0 {
      return false;
    }
    ghost var v1 := kn.v;
    CopyPageM(kn, tmp, src);
    C.FaultCopyEffect(v0, d, n);
    C.MapAt(kn.v, tmp, src, C.PUW);
    MapAllowed(kn.v, d, C.PFTEMP, d, n, C.PUW);
    r := SysPageMapM(kn, d, C.PFTEMP * PGSIZE, d, n * PGSIZE, C.PUW);
    if r < 0 {
      return false;
    }
    var r' := SysPageUnmapM(kn, d, C.PFTEMP * PGSIZE);
    ok := true;
  }

  lemma TableOf(v: VM, k: Loc)
    requires Good(v) && k in v.ptes
    ensures SlotOf(k) in v.tabs && PteWord(v, k) == v.ptes[k]
  {
  }

  // The calls of lib/fork.c set no high bits of perm, so they are sound.
  lemma MapAllowed(v: VM, sd: nat, sn: nat, dd: nat, dn: nat, perm: Word)
    requires Good(v) && perm.pn == 0
    requires Loc(sd, sn) in v.ptes && v.ptes[Loc(sd, sn)].pn < |v.ref| ==> v.ref[v.ptes[Loc(sd, sn)].pn] < 65535
    ensures MapSound(v, sd, sn * PGSIZE, dd, dn * PGSIZE, perm) && CountBelowTop(v, Loc(sd, sn * PGSIZE / PGSIZE))
  {
    if Loc(sd, sn) in v.ptes {
      BitOrZero(v.ptes[Loc(sd, sn)].pn);
    }
  }

  // duppage; the page is present, and no count wraps around.
  method Duppage(kn: Kernel, p: nat, c: nat, n: nat) returns (ok: bool)
    requires kn.Valid(multiset{}) && p in kn.v.dirs && c in kn.v.dirs && Loc(p, n) in kn.v.ptes
    requires C.Duppage(kn.v, p, c, n) != C.Wrap
    modifies kn`freeList, kn`v, kn`tlb, kn.link, kn.refc, kn.mem
    ensures kn.Valid(multiset{}) && Good(old(kn.v))
    ensures C.Duppage(old(kn.v), p, c, n) == if ok then C.Ok(kn.v) else C.Stop
  {
    hide InvX, ListRep, Small, Coherent, Represents, SysPageMap, InRange, Content, CanWalk, C.DupPerm, C.CowPerm;
    ghost var v0 := kn.v;
    var src := Loc(p, n);
    C.SrcFacts(v0, src);
    TableOf(v0, src);
    var pte := ReadUvpt(kn, src);
    C.DupPermFlags(pte);
    if Writable(pte) || Cow(pte) {
      C.MapAt(v0, src, Loc(c, n), C.CowPerm(pte));
      MapAllowed(v0, p, n, c, n, C.CowPerm(pte));
      var r := SysPageMapM(kn, p, n * PGSIZE, c, n * PGSIZE, C.CowPerm(pte));
      if r < 0 {
        return false;
      }
      C.CountUp(v0, kn.v, Loc(c, n), pte.pn, C.CowPerm(pte).fl);
      C.SrcFacts(kn.v, src);
      MapAllowed(kn.v, p, n, p, n, C.CowPerm(pte));
      r := SysPageMapM(kn, p, n * PGSIZE, p, n * PGSIZE, C.CowPerm(pte));
      return r >= 0;
    } else {
      MapAllowed(v0, p, n, c, n, C.DupPerm(pte));
      var r := SysPageMapM(kn, p, n * PGSIZE, c, n * PGSIZE, C.DupPerm(pte));
      return r >= 0;
    }
  }

  // fork from sys_exofork on: the child's directory, or -1 after a panic. No count wraps around.
  method Fork(kn: Kernel, p: nat) returns (c: int)
    requires kn.Valid(multiset{}) && C.Ready(kn.v) && p in kn.v.dirs && C.Fork(kn.v, p) != C.Wrap
    modifies kn`freeList, kn`v, kn`tlb, kn.link, kn.refc, kn.mem
    ensures kn.Valid(multiset{}) && C.Ready(old(kn.v))
    ensures c >= 0 ==> C.Fork(old(kn.v), p) == C.Ok((kn.v, c))
    ensures c < 0 ==> C.Fork(old(kn.v), p) == C.Stop
  {
    hide InvX, ListRep, Small, Coherent, Represents, SysPageAlloc, Create, InRange, C.Excl, C.Mapped, C.View, C.SpaceOf;
    ghost var v0 := kn.v;
    C.GoodRange(v0);
    C.CreateSome(v0);
    c := EnvSetupVm(kn);
    if c < 0 {
      return -1;
    }
    C.CreateView(v0);
    ghost var v1 := kn.v;
    var n := 0;
    while n < UVPN
      invariant 0 <= n <= UVPN && kn.Valid(multiset{}) && C.Ready(kn.v) && c >= 0
      invariant kn.v.dirs == v1.dirs && p in v1.dirs && c in v1.dirs && p != c
      invariant C.ForkPages(kn.v, p, c, n) == C.ForkPages(v1, p, c, 0) && C.ForkPages(v1, p, c, 0) != C.Wrap
    {
      var ok := ForkPage(kn, p, c, n);
      if !ok {
        return -1;
      }
      n := n + 1;
    }
    C.GoodRange(kn.v);
    var r := SysPageAllocM(kn, c, C.XSTK * PGSIZE, C.PUW);
    if r < 0 {
      return -1;
    }
  }

  // One turn of fork's loop.
  method ForkPage(kn: Kernel, p: nat, c: nat, n: nat) returns (ok: bool)
    requires kn.Valid(multiset{}) && C.Ready(kn.v) && p in kn.v.dirs && c in kn.v.dirs && p != c && n < UVPN
    requires C.ForkPages(kn.v, p, c, n) != C.Wrap
    modifies kn`freeList, kn`v, kn`tlb, kn.link, kn.refc, kn.mem
    ensures kn.Valid(multiset{}) && C.Ready(old(kn.v))
    ensures !ok ==> C.ForkPages(old(kn.v), p, c, n) == C.Stop
    ensures ok ==> C.Ready(kn.v) && kn.v.dirs == old(kn.v).dirs
    ensures ok ==> C.ForkPages(old(kn.v), p, c, n) == C.ForkPages(kn.v, p, c, n + 1)
  {
    hide InvX, ListRep, Small, Coherent, Represents, C.Duppage, C.Excl, C.Mapped, C.View, C.SpaceOf, C.CellOf;
    if n == C.XSTK {
      return true;
    }
    EntryFlags(kn.v, Loc(p, n));
    var pde := ReadUvpd(kn, p, n / 1024);
    if !Present(pde) || pde.fl & PTE_U == 0 {
      return true;
    }
    var pte := ReadUvpt(kn, Loc(p, n));
    if !Present(pte) || pte.fl & PTE_U == 0 {
      return true;
    }
    ghost var v0 := kn.v;
    ok := Duppage(kn, p, c, n);
    if ok {
      C.DuppageEffect(v0, p, c, n);
    }
  }

  // The tests of PTE_P and PTE_U in fork find out whether the page is mapped.
  lemma EntryFlags(v: VM, k: Loc)
    requires Good(v) && k.vpn < UVPN
    ensures Present(PdeWord(v, SlotOf(k))) && PdeWord(v, SlotOf(k)).fl & PTE_U != 0 <==> SlotOf(k) in v.tabs
    ensures Present(PteWord(v, k)) && PteWord(v, k).fl & PTE_U != 0 <==> k in v.ptes
    ensures k in v.ptes ==> SlotOf(k) in v.tabs
  {
    assert (7 as bv12) & 1 != 0 && (7 as bv12) & 4 != 0;
    if k in v.ptes {
      UserFlags(v.ptes[k].fl);
    }
  }

  lemma UserFlags(fl: bv12)
    requires fl & 5 == 5
    ensures fl & 1 != 0 && fl & 4 != 0
  {
  }
}
