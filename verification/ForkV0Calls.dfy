/** fork_v0 as the user program runs it: a loop over page numbers that issues system calls. */
module ForkV0Calls {
  import opened Words
  import opened Vm
  import opened VmInv
  import opened Syscalls
  import opened Tables
  import opened Pmap
  import opened KernelCalls
  import opened ForkCalls
  import opened ForkV0
  import C = CowFork

  // The copying half of dup_or_share.
  method CopyToChild(kn: Kernel, p: nat, c: nat, n: nat, pte: Word) returns (ok: bool)
    requires kn.Valid(multiset{}) && Good(kn.v) && p in kn.v.dirs && c in kn.v.dirs && p != c && n < UVPN
    requires Loc(p, n) in kn.v.ptes && pte == kn.v.ptes[Loc(p, n)] && Copied(pte)
    modifies kn`freeList, kn`v, kn`tlb, kn.link, kn.refc, kn.mem
    ensures kn.Valid(multiset{})
    ensures DupCopy(old(kn.v), p, c, n) == if ok then C.Ok(kn.v) else C.Stop
  {
    hide InvX, ListRep, Small, Coherent, Represents, SysPageAlloc, SysPageMap, SysPageUnmap, InRange, Content, CanWalk,
      C.CopyPage, FilteredPerm, Io;
    ghost var v0 := kn.v;
    var src, dst, tmp := Loc(p, n), Loc(c, n), Loc(p, UTEMP);
    var perm := FilteredPerm(pte);
    FilteredFlags(pte);
    AllocFiltered(v0, c, n, perm);
    var r := SysPageAllocM(kn, c, n * PGSIZE, perm);
    if r < 0 {
      return false;
    }
    NewPageCount(v0, kn.v, dst, v0.free[0]);
    C.MapAt(kn.v, dst, tmp, perm);
    MapAllowed(kn.v, c, n, p, UTEMP, perm);
    r := SysPageMapM(kn, c, n * PGSIZE, p, UTEMP * PGSIZE, perm);
    if r < 0 {
      return false;
    }
    C.CopyGood(kn.v, tmp, src);
    C.CopyEffect(kn.v, tmp, src);
    CopyPageM(kn, tmp, src);
    C.GoodRange(kn.v);
    r := SysPageUnmapM(kn, p, UTEMP * PGSIZE);
    ok := true;
  }

  // dup_or_share of a present page; false is a panic. No count wraps around.
  method DupOrSharePage(kn: Kernel, p: nat, c: nat, n: nat) returns (ok: bool)
    requires kn.Valid(multiset{}) && Good(kn.v) && p in kn.v.dirs && c in kn.v.dirs && p != c && n < UVPN
    requires Loc(p, n) in kn.v.ptes
    requires DupOrShare(kn.v, p, c, n) != C.Wrap
    modifies kn`freeList, kn`v, kn`tlb, kn.link, kn.refc, kn.mem
    ensures kn.Valid(multiset{})
    ensures DupOrShare(old(kn.v), p, c, n) == if ok then C.Ok(kn.v) else C.Stop
  {
    hide InvX, ListRep, Small, Coherent, Represents, SysPageMap, InRange, Content, CanWalk, DupCopy, FilteredPerm, Io;
    ghost var v0 := kn.v;
    var src := Loc(p, n);
    C.SrcFacts(v0, src);
    TableOf(v0, src);
    var pte := ReadUvpt(kn, src);
    FilteredFlags(pte);
    if !Writable(pte) || Io(pte) {
      C.GoodRange(v0);
      MapAllowed(v0, p, n, c, n, FilteredPerm(pte));
      var r := SysPageMapM(kn, p, n * PGSIZE, c, n * PGSIZE, FilteredPerm(pte));
      C.MapAt(v0, src, Loc(c, n), FilteredPerm(pte));
      return r >= 0;
    }
    ok := CopyToChild(kn, p, c, n, pte);
  }

  // One turn of the loop.
  method Turn(kn: Kernel, p: nat, c: nat, n: nat) returns (ok: bool)
    requires kn.Valid(multiset{}) && Good(kn.v)
    requires p in kn.v.dirs && c in kn.v.dirs && p != c && n < UVPN && ZeroPages(kn.v, p, c, n) != C.Wrap
    modifies kn`freeList, kn`v, kn`tlb, kn.link, kn.refc, kn.mem
    ensures kn.Valid(multiset{})
    ensures !ok ==> ZeroPages(old(kn.v), p, c, n) == C.Stop
    ensures ok ==> Good(kn.v) && kn.v.dirs == old(kn.v).dirs
    ensures ok ==> ZeroPages(old(kn.v), p, c, n) == ZeroPages(kn.v, p, c, n + 1)
  {
    hide InvX, ListRep, Small, Coherent, Represents, DupOrShare, Turned;
    ghost var v0 := kn.v;
    EntryFlags(v0, Loc(p, n));
    var pde := ReadUvpd(kn, p, n / 1024);
    if !Present(pde) || pde.fl & PTE_U == 0 {
      return true;
    }
    var pte := ReadUvpt(kn, Loc(p, n));
    PresentIs(v0, Loc(p, n));
    if !Present(pte) {
      return true;
    }
    ok := DupOrSharePage(kn, p, c, n);
    if ok {
      DupOrShareEffect(v0, p, c, n);
      TurnedGood(v0, kn.v, p, c, n);
    }
  }

  lemma PresentIs(v: VM, k: Loc)
    requires Good(v) && k.vpn < UVPN
    ensures Present(PteWord(v, k)) <==> k in v.ptes
  {
    if k in v.ptes {
      UserFlags(v.ptes[k].fl);
    }
  }

  // fork_v0 from sys_exofork on: the child's directory, or -1 after a panic.
  method ForkZeroRun(kn: Kernel, p: nat) returns (c: int)
    requires kn.Valid(multiset{}) && C.Ready(kn.v) && p in kn.v.dirs && ForkZero(kn.v, p) != C.Wrap
    modifies kn`freeList, kn`v, kn`tlb, kn.link, kn.refc, kn.mem
    ensures kn.Valid(multiset{})
    ensures c >= 0 ==> ForkZero(old(kn.v), p) == C.Ok((kn.v, c))
    ensures c < 0 ==> ForkZero(old(kn.v), p) == C.Stop
  {
    hide InvX, ListRep, Small, Coherent, Represents, Create, InRange, C.Excl, C.Mapped, C.View, C.SpaceOf, Io;
    ghost var v0 := kn.v;
    C.GoodRange(v0);
    C.CreateSome(v0);
    c := EnvSetupVm(kn);
    if c < 0 {
      return -1;
    }
    C.CreateView(v0);
    ghost var v1 := kn.v;
    var n := 0;
    while n < UVPN
      invariant 0 <= n <= UVPN && kn.Valid(multiset{}) && Good(kn.v) && c >= 0
      invariant kn.v.dirs == v1.dirs && p in v1.dirs && c in v1.dirs && p != c
      invariant ZeroPages(kn.v, p, c, n) == ZeroPages(v1, p, c, 0) && ZeroPages(v1, p, c, 0) != C.Wrap
    {
      var ok := Turn(kn, p, c, n);
      if !ok {
        return -1;
      }
      n := n + 1;
    }
  }
}
