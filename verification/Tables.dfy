/** How two-level page tables in physical memory represent the flat maps, and how a TLB agrees with them. */
module Tables {
  import opened Words
  import opened Vm

  const UVPT_PDX := 957 // PDX(UVPT)

  datatype Option<T> = None | Some(value: T)

  function PdeWord(v: VM, s: Slot): Word { if s in v.tabs then Word(v.tabs[s], 7) else ZERO }

  function PteWord(v: VM, k: Loc): Word { if k in v.ptes then v.ptes[k] else ZERO }

  function At(s: Slot, j: nat): Loc { Loc(s.d, 1024 * s.pdx + j) }

  // Every directory holds one word per table below UTOP and the kernel's words above, apart
  // from the entry that maps the directory as a page table of itself.
  ghost predicate DirsRep(v: VM, mem: seq<Page>, kern: nat)
  {
    && |mem| == |v.ref| && kern < |mem|
    && (forall d :: d in v.dirs ==> d < |mem|)
    && (forall d, i :: d in v.dirs && 0 <= i < UPDX ==> mem[d][i] == PdeWord(v, Slot(d, i)))
    && (forall d :: d in v.dirs ==> mem[d][UVPT_PDX] == Word(d, 5))
    && (forall d, i :: d in v.dirs && UPDX <= i < 1024 && i != UVPT_PDX ==> mem[d][i] == mem[kern][i])
  }

  ghost predicate TabsRep(v: VM, mem: seq<Page>)
  {
    && |mem| == |v.ref|
    && (forall s :: s in v.tabs ==> v.tabs[s] < |mem|)
    && (forall s, j :: s in v.tabs && 0 <= j < 1024 ==> mem[v.tabs[s]][j] == PteWord(v, At(s, j)))
  }

  ghost predicate DataRep(v: VM, mem: seq<Page>)
  {
    && |mem| == |v.ref|
    && (forall f :: f in v.data ==> f < |mem| && mem[f] == v.data[f])
  }

  // The kernel's own directory is no frame of the allocator and maps nothing below UTOP.
  ghost predicate KernOk(v: VM, mem: seq<Page>, kern: nat)
  {
    && kern < |mem| && kern !in v.dirs && kern !in v.data
    && (forall s :: s in v.tabs ==> v.tabs[s] != kern)
    && (forall i :: 0 <= i < |v.free| ==> v.free[i] != kern)
    && (forall i :: 0 <= i < UPDX ==> mem[kern][i] == ZERO)
  }

  ghost predicate Represents(v: VM, mem: seq<Page>, kern: nat)
  {
    DirsRep(v, mem, kern) && TabsRep(v, mem) && DataRep(v, mem) && KernOk(v, mem, kern)
  }

  function Next(free: seq<nat>, i: nat): int
    requires i < |free|
  {
    if i + 1 < |free| then free[i + 1] else -1
  }

  // The free list threaded through pp_link; -1 is NULL.
  ghost predicate ListRep(head: int, link: seq<int>, free: seq<nat>)
  {
    && head == (if free == [] then -1 else free[0])
    && (forall i :: 0 <= i < |free| ==> free[i] < |link|)
    && (forall i :: 0 <= i < |free| ==> link[free[i]] == Next(free, i))
    && (forall f :: 0 <= f < |link| && f !in free ==> link[f] == -1)
  }

  lemma ListPop(head: int, link: seq<int>, free: seq<nat>)
    requires ListRep(head, link, free) && free != []
    requires forall i, j :: 0 <= i < j < |free| ==> free[i] != free[j]
    ensures ListRep(link[head], link[head := -1], free[1..])
  {
    forall f | 0 <= f < |link| && f !in free[1..]
      ensures link[head := -1][f] == -1
    {
      assert f == free[0] || f !in free;
    }
  }

  lemma ListPush(head: int, link: seq<int>, free: seq<nat>, f: nat)
    requires ListRep(head, link, free) && f < |link| && f !in free
    ensures ListRep(f, link[f := head], [f] + free)
  {
    var l := [f] + free;
    var m := link[f := head];
    forall i | 0 <= i < |l|
      ensures l[i] < |m| && m[l[i]] == Next(l, i)
    {
      if i > 0 {
        assert l[i] == free[i - 1] && free[i - 1] in free;
        assert link[free[i - 1]] == Next(free, i - 1);
      }
    }
    assert forall g :: g in l <==> g == f || g in free;
  }

  // ---- Memory updates ----

  // A frame with no role may hold anything.
  lemma RepScratch(v: VM, mem: seq<Page>, kern: nat, f: nat, p: Page)
    requires Represents(v, mem, kern) && f < |mem| && f != kern
    requires f !in v.dirs && f !in v.data && (forall s :: s in v.tabs ==> v.tabs[s] != f)
    ensures Represents(v, mem[f := p], kern)
  {
  }

  // The page table entry for k is overwritten.
  lemma RepPte(v: VM, mem: seq<Page>, kern: nat, k: Loc, w: Word, v': VM)
    requires Represents(v, mem, kern) && Shape(v) && SlotOf(k) in v.tabs
    requires |v'.ref| == |v.ref| && v'.tabs == v.tabs && v'.dirs == v.dirs
    requires v'.free == v.free && v'.data == v.data
    requires v'.ptes == (if w == ZERO then v.ptes - {k} else v.ptes[k := w])
    ensures var t := v.tabs[SlotOf(k)];
            t < |mem| && Represents(v', mem[t := mem[t][k.vpn % 1024 := w]], kern)
  {
    PteInTable(v, mem, k, w, v');
    hide PteWord, PdeWord, ZeroPage;
  }

  lemma PteInTable(v: VM, mem: seq<Page>, k: Loc, w: Word, v': VM)
    requires TabsRep(v, mem) && SlotOf(k) in v.tabs && |v'.ref| == |v.ref| && v'.tabs == v.tabs
    requires forall s, s' :: s in v.tabs && s' in v.tabs && v.tabs[s] == v.tabs[s'] ==> s == s'
    requires v'.ptes == (if w == ZERO then v.ptes - {k} else v.ptes[k := w])
    ensures var t := v.tabs[SlotOf(k)];
            t < |mem| && TabsRep(v', mem[t := mem[t][k.vpn % 1024 := w]])
  {
    var t := v.tabs[SlotOf(k)];
    var m := mem[t := mem[t][k.vpn % 1024 := w]];
    forall s, j | s in v.tabs && 0 <= j < 1024
      ensures m[v.tabs[s]][j] == PteWord(v', At(s, j))
    {
      assert At(s, j) == k <==> s == SlotOf(k) && j == k.vpn % 1024;
      assert v.tabs[s] == t ==> s == SlotOf(k);
    }
  }

  // A zeroed frame becomes the table of s.
  lemma RepNewTable(v: VM, mem: seq<Page>, kern: nat, s: Slot, t: nat, v': VM)
    requires Represents(v, mem, kern) && Shape(v) && s !in v.tabs && s.d in v.dirs && s.pdx < UPDX
    requires t < |mem| && t != kern && t !in v.dirs && t !in v.data && (forall q :: q in v.tabs ==> v.tabs[q] != t)
    requires mem[t] == ZeroPage()
    requires |v'.ref| == |v.ref| && v'.tabs == v.tabs[s := t] && v'.dirs == v.dirs && v'.ptes == v.ptes
    requires v'.free == v.free && v'.data == v.data
    ensures Represents(v', mem[s.d := mem[s.d][s.pdx := Word(t, 7)]], kern)
  {
    NewPde(v, mem, kern, s, t, v');
    var m := mem[s.d := mem[s.d][s.pdx := Word(t, 7)]];
    hide DirsRep, PdeWord, KernOk;
    forall q, j | q in v'.tabs && 0 <= j < 1024
      ensures m[v'.tabs[q]][j] == PteWord(v', At(q, j))
    {
      assert SlotOf(At(q, j)) == q;
    }
  }

  lemma NewPde(v: VM, mem: seq<Page>, kern: nat, s: Slot, t: nat, v': VM)
    requires DirsRep(v, mem, kern) && KernOk(v, mem, kern) && s !in v.tabs && s.d in v.dirs && s.pdx < UPDX && t != kern
    requires |v'.ref| == |v.ref| && v'.tabs == v.tabs[s := t] && v'.dirs == v.dirs && v'.free == v.free && v'.data == v.data
    ensures DirsRep(v', mem[s.d := mem[s.d][s.pdx := Word(t, 7)]], kern)
    ensures KernOk(v', mem[s.d := mem[s.d][s.pdx := Word(t, 7)]], kern)
  {
  }

  // The entry of table s is cleared; its frame loses its role.
  lemma RepDropTable(v: VM, mem: seq<Page>, kern: nat, s: Slot, v': VM)
    requires Represents(v, mem, kern) && Shape(v) && s in v.tabs
    requires |v'.ref| == |v.ref| && v'.tabs == v.tabs - {s} && v'.dirs == v.dirs && v'.ptes == v.ptes
    requires v'.free == v.free && v'.data == v.data
    ensures Represents(v', mem[s.d := mem[s.d][s.pdx := ZERO]], kern)
  {
    DropPde(v, mem, kern, s, v');
    hide DirsRep, PdeWord, ZeroPage;
  }

  lemma DropPde(v: VM, mem: seq<Page>, kern: nat, s: Slot, v': VM)
    requires DirsRep(v, mem, kern) && s in v.tabs && s.d in v.dirs && s.pdx < UPDX && s.d != kern
    requires |v'.ref| == |v.ref| && v'.tabs == v.tabs - {s} && v'.dirs == v.dirs
    ensures DirsRep(v', mem[s.d := mem[s.d][s.pdx := ZERO]], kern)
  {
  }

  // ---- The hardware walk ----

  // The entry the processor finds for page number vpn under the directory in frame d.
  function HwWalk(mem: seq<Page>, d: nat, vpn: nat): Option<Word>
    requires d < |mem| && vpn < 1024 * 1024
  {
    var pde := mem[d][vpn / 1024];
    if !Present(pde) || pde.pn >= |mem| then None
    else
      var pte := mem[pde.pn][vpn % 1024];
      if Present(pte) then Some(pte) else None
  }

  lemma PresentOf(w: Word)
    requires w.fl & 5 == 5
    ensures Present(w) && w != ZERO
  {
  }

  // Below UTOP the two-level walk is the flat map.
  lemma HwWalkFlat(v: VM, mem: seq<Page>, kern: nat, k: Loc)
    requires Represents(v, mem, kern) && Shape(v) && k.d in v.dirs && k.vpn < UVPN
    ensures HwWalk(mem, k.d, k.vpn) == if k in v.ptes then Some(v.ptes[k]) else None
  {
    var s := SlotOf(k);
    assert mem[k.d][s.pdx] == PdeWord(v, s);
    if s in v.tabs {
      assert At(s, k.vpn % 1024) == k;
      if k in v.ptes {
        PresentOf(v.ptes[k]);
      }
    }
  }

  // Reading uvpt[n] (page UVPT + n/1024, word n%1024) gives the entry for page n when its table
  // exists, and faults otherwise; reading uvpd[i] gives directory entry i.
  lemma UvptReads(v: VM, mem: seq<Page>, kern: nat, k: Loc)
    requires Represents(v, mem, kern) && Shape(v) && k.d in v.dirs && k.vpn < UVPN
    ensures var w := HwWalk(mem, k.d, 1024 * UVPT_PDX + k.vpn / 1024);
            if SlotOf(k) in v.tabs then w.Some? && w.value.pn < |mem| && mem[w.value.pn][k.vpn % 1024] == PteWord(v, k)
            else w == None
    ensures HwWalk(mem, k.d, 1024 * UVPT_PDX + UVPT_PDX) == Some(Word(k.d, 5))
  {
    var s := SlotOf(k);
    assert mem[k.d][s.pdx] == PdeWord(v, s);
    PresentOf(Word(k.d, 5));
    if s in v.tabs {
      assert At(s, k.vpn % 1024) == k;
      assert Present(Word(v.tabs[s], 7));
    }
  }

  // ---- TLB ----

  // What the processor may have cached for the directory it has loaded.
  ghost predicate Coherent(v: VM, cr3: nat, tlb: map<nat, Word>)
  {
    forall p :: p in tlb ==> Loc(cr3, p) in v.ptes && tlb[p] == v.ptes[Loc(cr3, p)]
  }

  // The loaded directory is the current environment's or the kernel's.
  predicate Loaded(cr3: nat, kern: nat, cur: Option<nat>) { cr3 == kern || cur == Some(cr3) }

  // tlb_invalidate(d, vpn): invlpg unless another directory is current.
  function Invalidate(tlb: map<nat, Word>, cur: Option<nat>, d: nat, vpn: nat): map<nat, Word>
  {
    if cur == None || cur == Some(d) then tlb - {vpn} else tlb
  }

  // Skipping the invalidation for directories that are not current is sound.
  lemma InvalidateCoherent(v: VM, cr3: nat, kern: nat, tlb: map<nat, Word>, cur: Option<nat>, k: Loc)
    requires Coherent(v, cr3, tlb) && Loaded(cr3, kern, cur) && k.d != kern
    ensures Coherent(v.(ptes := v.ptes - {k}), cr3, Invalidate(tlb, cur, k.d, k.vpn))
  {
  }
}
