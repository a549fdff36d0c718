/** The check of user memory ranges, user_mem_check in kern/pmap.c, with its 32-bit arithmetic. */
module UserMem {
  import opened Words
  import opened Vm
  import opened Syscalls
  import opened Tables
  import opened Pmap

  const SPACE := 0x1_0000_0000
  const E_FAULT := -6

  function RoundDown(a: nat): (r: nat)
    ensures r % PGSIZE == 0 && r <= a < r + PGSIZE
  {
    a - a % PGSIZE
  }

  // ROUNDUP on a 32-bit value.
  function RoundUp(a: nat): (r: nat)
    ensures r % PGSIZE == 0
  {
    RoundDown((a + PGSIZE - 1) % SPACE)
  }

  // The page is mapped with perm | PTE_P.
  predicate Allows(v: VM, d: nat, n: nat, perm: bv12) {
    Loc(d, n) in v.ptes && v.ptes[Loc(d, n)].fl & (perm | PTE_P) == perm | PTE_P
  }

  // The loop from va_act on: the result, and user_mem_check_addr when it is an error.
  function CheckPages(v: VM, d: nat, act: nat, hi: nat, va: nat, perm: bv12): (int, nat)
    decreases hi - act
  {
    if act >= hi then (0, 0)
    else if !Allows(v, d, act / PGSIZE, perm) then (E_FAULT, if act > va then act else va)
    else CheckPages(v, d, act + PGSIZE, hi, va, perm)
  }

  function Check(v: VM, d: nat, va: nat, len: nat, perm: bv12): (int, nat) {
    var hi := RoundUp((va + len) % SPACE);
    if hi > UTOP then (E_FAULT, va) else CheckPages(v, d, RoundDown(va), hi, va, perm)
  }

  // Page n is the first of the loop that fails, and addr the first address of the range in it.
  ghost predicate FirstBad(v: VM, d: nat, act: nat, hi: nat, va: nat, perm: bv12, addr: nat, n: nat) {
    && act <= n * PGSIZE < hi && !Allows(v, d, n, perm)
    && addr == (if n * PGSIZE > va then n * PGSIZE else va)
    && forall m: nat :: act <= m * PGSIZE < n * PGSIZE ==> Allows(v, d, m, perm)
  }

  lemma {:induction false} CheckPagesFinds(v: VM, d: nat, act: nat, hi: nat, va: nat, perm: bv12)
    requires act % PGSIZE == 0 && hi % PGSIZE == 0
    ensures var (r, addr) := CheckPages(v, d, act, hi, va, perm);
      && (r == 0 <==> forall n: nat :: act <= n * PGSIZE < hi ==> Allows(v, d, n, perm))
      && (r != 0 ==> r == E_FAULT && exists n: nat :: FirstBad(v, d, act, hi, va, perm, addr, n))
    decreases hi - act
  {
    if act < hi {
      var k := act / PGSIZE;
      assert act == k * PGSIZE;
      if Allows(v, d, k, perm) {
        CheckPagesFinds(v, d, act + PGSIZE, hi, va, perm);
        assert forall n: nat :: act <= n * PGSIZE < hi <==> n == k || act + PGSIZE <= n * PGSIZE < hi;
        var (r, addr) := CheckPages(v, d, act, hi, va, perm);
        if r != 0 {
          var n: nat :| FirstBad(v, d, act + PGSIZE, hi, va, perm, addr, n);
          assert FirstBad(v, d, act, hi, va, perm, addr, n);
        }
      } else {
        assert FirstBad(v, d, act, hi, va, perm, if act > va then act else va, k);
      }
    }
  }

  // The range lies in the user part, and every byte of it may be accessed.
  predicate Accessible(v: VM, d: nat, va: nat, len: nat, perm: bv12) {
    va + len <= UTOP && forall a: nat :: va <= a < va + len ==> Allows(v, d, a / PGSIZE, perm)
  }

  // An empty range inside a page is treated as a range of that page.
  predicate EmptyInside(va: nat, len: nat) { len == 0 && va % PGSIZE != 0 }

  // The end of the range, rounded up, does not fit 32 bits.
  predicate Wraps(va: nat, len: nat) { va + len + PGSIZE - 1 >= SPACE }

  // The pages the loop looks at.
  lemma LoopPages(va: nat, len: nat, n: nat)
    requires va < SPACE && !Wraps(va, len)
    ensures var act, hi := RoundDown(va), RoundUp(va + len);
      && (act <= n * PGSIZE < hi <==> va / PGSIZE <= n <= (va + len - 1) / PGSIZE)
      && (len > 0 && act <= n * PGSIZE < hi ==> exists a: nat :: va <= a < va + len && a / PGSIZE == n)
      && (len == 0 && act <= n * PGSIZE < hi ==> EmptyInside(va, len) && n == va / PGSIZE)
  {
    if len > 0 && va / PGSIZE <= n <= (va + len - 1) / PGSIZE {
      var a := if n * PGSIZE > va then n * PGSIZE else va;
      assert va <= a < va + len && a / PGSIZE == n;
    }
  }

  lemma BytesOrPages(v: VM, d: nat, va: nat, len: nat, perm: bv12)
    requires va < SPACE && !Wraps(va, len)
    ensures (forall n: nat :: RoundDown(va) <= n * PGSIZE < RoundUp(va + len) ==> Allows(v, d, n, perm)) <==>
            && (forall a: nat :: va <= a < va + len ==> Allows(v, d, a / PGSIZE, perm))
            && (EmptyInside(va, len) ==> Allows(v, d, va / PGSIZE, perm))
  {
    hide Allows;
    if forall n: nat :: RoundDown(va) <= n * PGSIZE < RoundUp(va + len) ==> Allows(v, d, n, perm) {
      forall a: nat | va <= a < va + len ensures Allows(v, d, a / PGSIZE, perm) {
        LoopPages(va, len, a / PGSIZE);
      }
      LoopPages(va, len, va / PGSIZE);
    } else {
      var n: nat :| RoundDown(va) <= n * PGSIZE < RoundUp(va + len) && !Allows(v, d, n, perm);
      LoopPages(va, len, n);
    }
  }

  // Without wrap-around the check accepts exactly the accessible ranges, except that it wants the
  // page of an empty range inside a page; inside the user part it reports the first address that
  // is not accessible.
  lemma CheckExact(v: VM, d: nat, va: nat, len: nat, perm: bv12)
    requires va < SPACE && len < SPACE && !Wraps(va, len)
    ensures var (r, addr) := Check(v, d, va, len, perm);
      && (r == 0 <==> Accessible(v, d, va, len, perm) && (EmptyInside(va, len) ==> Allows(v, d, va / PGSIZE, perm)))
      && (r == 0 || r == E_FAULT)
      && (r != 0 && va + len <= UTOP ==>
            && va <= addr && (addr < va + len || (len == 0 && addr == va)) && !Allows(v, d, addr / PGSIZE, perm)
            && forall a: nat :: va <= a < addr ==> Allows(v, d, a / PGSIZE, perm))
  {
    hide Allows, CheckPages, RoundDown, RoundUp;
    CheckPagesFinds(v, d, RoundDown(va), RoundUp(va + len), va, perm);
    BytesOrPages(v, d, va, len, perm);
    UserEnd(va + len);
    var (r, addr) := Check(v, d, va, len, perm);
    if r != 0 && va + len <= UTOP {
      var n: nat :| FirstBad(v, d, RoundDown(va), RoundUp(va + len), va, perm, addr, n);
      LoopPages(va, len, n);
      forall a: nat | va <= a < addr ensures Allows(v, d, a / PGSIZE, perm) {
        PageBefore(va, a, n);
      }
    }
  }

  lemma UserEnd(end: nat)
    requires end + PGSIZE - 1 < SPACE
    ensures RoundUp(end) <= UTOP <==> end <= UTOP
  {
  }

  lemma PageBefore(va: nat, a: nat, n: nat)
    requires va <= a < n * PGSIZE
    ensures RoundDown(va) <= a / PGSIZE * PGSIZE < n * PGSIZE
  {
  }

  // With wrap-around no range is accessible, and the check looks at the pages below the wrapped
  // end only.
  lemma CheckWrapped(v: VM, d: nat, va: nat, len: nat, perm: bv12)
    requires va < SPACE && len < SPACE && Wraps(va, len)
    ensures !Accessible(v, d, va, len, perm)
    ensures var hi := RoundUp((va + len) % SPACE);
      Check(v, d, va, len, perm).0 == 0 <==>
      hi <= UTOP && forall n: nat :: RoundDown(va) <= n * PGSIZE < hi ==> Allows(v, d, n, perm)
  {
    CheckPagesFinds(v, d, RoundDown(va), RoundUp((va + len) % SPACE), va, perm);
  }

  // So the range from any page to the end of the address space is accepted.
  lemma WrappedPasses(v: VM, d: nat, va: nat, perm: bv12)
    requires 0 < va < SPACE && va % PGSIZE == 0
    ensures Check(v, d, va, SPACE - va, perm).0 == 0 && !Accessible(v, d, va, SPACE - va, perm)
  {
    CheckWrapped(v, d, va, SPACE - va, perm);
    assert (va + (SPACE - va)) % SPACE == 0;
  }

  // The entry the loop looks at: pgdir_walk without creating, then the word, zero without a table.
  method ReadEntry(kn: Kernel, k: Loc) returns (w: Word)
    requires kn.Valid(multiset{}) && k.d in kn.v.dirs && k.vpn < UVPN
    modifies kn`freeList, kn`v, kn.link, kn.refc, kn.mem
    ensures kn.Valid(multiset{}) && kn.v == old(kn.v) && kn.mem[..] == old(kn.mem[..])
    ensures w == PteWord(kn.v, k)
  {
    hide InvX, Represents, ListRep, Small, Coherent;
    EntryAt(kn.v, multiset{}, k, kn.mem[..], kn.kern);
    var t := kn.PgdirWalk(k, false, multiset{});
    w := if t == -1 then ZERO else kn.mem[t][k.vpn % 1024];
  }

  // One turn of the loop: whether the page may be accessed.
  method PageAllowed(kn: Kernel, k: Loc, perm: bv12) returns (ok: bool)
    requires kn.Valid(multiset{}) && k.d in kn.v.dirs && k.vpn < UVPN
    modifies kn`freeList, kn`v, kn.link, kn.refc, kn.mem
    ensures kn.Valid(multiset{}) && kn.v == old(kn.v) && kn.mem[..] == old(kn.mem[..])
    ensures ok == Allows(kn.v, k.d, k.vpn, perm)
  {
    hide InvX, Represents, ListRep, Small, Coherent, Loaded, Allows, PteWord;
    var w := ReadEntry(kn, k);
    EntryAllows(kn.v, k, perm);
    ok := w.fl & (perm | PTE_P) == perm | PTE_P;
  }

  // The loop over the pages of the range, as the kernel runs it.
  method UserMemCheck(kn: Kernel, d: nat, va: nat, len: nat, perm: bv12) returns (r: int, addr: nat)
    requires kn.Valid(multiset{}) && d in kn.v.dirs && va < SPACE && len < SPACE
    modifies kn`freeList, kn`v, kn.link, kn.refc, kn.mem
    ensures kn.Valid(multiset{}) && kn.v == old(kn.v) && kn.mem[..] == old(kn.mem[..])
    ensures (r, addr) == Check(kn.v, d, va, len, perm)
  {
    hide InvX, Represents, ListRep, Small, Coherent, Loaded, Allows, PteWord, CheckPages, RoundDown, RoundUp;
    var hi := RoundUp((va + len) % SPACE);
    if hi > UTOP {
      return E_FAULT, va;
    }
    ghost var v0 := kn.v;
    var act := RoundDown(va);
    while act < hi
      invariant kn.Valid(multiset{}) && kn.v == v0 && kn.mem[..] == old(kn.mem[..]) && d in v0.dirs
      invariant CheckPages(v0, d, act, hi, va, perm) == CheckPages(v0, d, RoundDown(va), hi, va, perm)
      decreases hi - act
    {
      PageBelow(act, hi);
      PagesStep(v0, d, act, hi, va, perm);
      var ok := PageAllowed(kn, Loc(d, act / PGSIZE), perm);
      if !ok {
        return E_FAULT, if act > va then act else va;
      }
      act := act + PGSIZE;
    }
    PagesStep(v0, d, act, hi, va, perm);
    return 0, 0;
  }

  lemma PageBelow(act: nat, hi: nat)
    requires act < hi <= UTOP
    ensures act / PGSIZE < UVPN
  {
  }

  lemma PagesStep(v: VM, d: nat, act: nat, hi: nat, va: nat, perm: bv12)
    ensures CheckPages(v, d, act, hi, va, perm) ==
      if act >= hi then (0, 0)
      else if !Allows(v, d, act / PGSIZE, perm) then (E_FAULT, if act > va then act else va)
      else CheckPages(v, d, act + PGSIZE, hi, va, perm)
  {
  }

  // An absent entry is the zero word, which lacks PTE_P.
  lemma EntryAllows(v: VM, k: Loc, perm: bv12)
    ensures Allows(v, k.d, k.vpn, perm) <==> PteWord(v, k).fl & (perm | PTE_P) == perm | PTE_P
  {
  }
}
