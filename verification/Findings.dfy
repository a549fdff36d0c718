/** States that real runs reach from boot and in which the calls of this system do what they are not meant to. */
module Findings {
  import opened Words
  import opened Vm
  import opened VmInv
  import opened Teardowns
  import opened Syscalls
  import opened Leaks
  import opened Pmap
  import opened CowFork
  import opened ForkV0
  import CowRuns

  // ---- Runs from boot --------------------------------------------------------------------

  // Some run of calls leads from v to w.
  ghost predicate Reaches(v: VM, w: VM) { Good(v) && exists ops :: Legal(v, ops) && Exec(v, ops) == w }

  lemma ReachesSelf(v: VM)
    requires Good(v)
    ensures Reaches(v, v)
  {
    assert Legal(v, []) && Exec(v, []) == v;
  }

  lemma {:induction false} OneMore(v: VM, ops: seq<Op>, op: Op)
    requires Good(v) && Legal(v, ops) && Allowed(Exec(v, ops), op)
    ensures Legal(v, ops + [op]) && Exec(v, ops + [op]) == Apply(Exec(v, ops), op)
    decreases |ops|
  {
    hide Inv, Small, Apply, Allowed, Pool;
    var all := ops + [op];
    if ops == [] {
      assert all[0] == op && all[1..] == [];
      ApplyGood(v, op);
    } else {
      assert all[0] == ops[0] && all[1..] == ops[1..] + [op];
      ApplyGood(v, ops[0]);
      OneMore(Apply(v, ops[0]), ops[1..], op);
    }
  }

  lemma Then(v: VM, w: VM, op: Op)
    requires Reaches(v, w) && Good(w) && Allowed(w, op)
    ensures Reaches(v, Apply(w, op))
  {
    hide Inv, Small, Apply, Allowed, Pool;
    var ops :| Legal(v, ops) && Exec(v, ops) == w;
    OneMore(v, ops, op);
  }

  // Right after boot the free list starts with the last frames, in descending order.
  lemma {:induction false} BootTop(n: nat, bootEnd: nat, k: nat)
    requires 256 <= bootEnd && bootEnd + k <= n
    ensures |BootFree(n, bootEnd)| >= k && forall i :: 0 <= i < k ==> BootFree(n, bootEnd)[i] == n - 1 - i
  {
    if k > 0 {
      BootTop(n - 1, bootEnd, k - 1);
    }
  }

  lemma NewEnvAt(v: VM)
    requires Good(v) && v.free != []
    ensures Allowed(v, NewEnv) && Good(Apply(v, NewEnv)) && v.free[0] !in v.dirs
    ensures var w := Apply(v, NewEnv);
      w.free == v.free[1..] && w.dirs == v.dirs + {v.free[0]} && w.tabs == v.tabs && w.ptes == v.ptes
  {
    CreateGood(v);
  }

  // A sys_page_alloc of a new page, with frames to spare.
  lemma AllocNew(v: VM, d: nat, n: nat, perm: Word)
    requires Good(v) && d in v.dirs && n < UVPN && Loc(d, n) !in v.ptes && PermOk(UserPerm(perm)) && |v.free| >= 2
    ensures InRange(v) && SysPageAlloc(v, d, n * PGSIZE, perm).1 == 0
    ensures var w, k := SysPageAlloc(v, d, n * PGSIZE, perm).0, Loc(d, n);
      && Good(w) && w.dirs == v.dirs && w.ptes == v.ptes[k := Word(v.free[0], UserPerm(perm).fl)]
      && w.free == (if SlotOf(k) in v.tabs then v.free[1..] else v.free[2..])
      && w.tabs == (if SlotOf(k) in v.tabs then v.tabs else v.tabs[SlotOf(k) := v.free[1]])
  {
    var k, u := Loc(d, n), PageAlloc(v);
    VaOk(n);
    SysPageAllocGood(v, d, n * PGSIZE, perm);
    AllocGood(v);
    UserPermFlags(perm);
    BitOrZero(v.free[0]);
    GoodInRange(v);
    GoodInRange(u);
    hide Good, InRange, PermOk, UserPerm;
    assert SysPageAlloc(v, d, n * PGSIZE, perm) == Insert(u, k, v.free[0], UserPerm(perm));
  }

  // ---- One page --------------------------------------------------------------------------

  // After boot, an environment and one page at n with permissions perm.
  lemma OnePage(n: nat, bootEnd: nat, at: nat, perm: Word) returns (v: VM, d: nat)
    requires 256 <= bootEnd && bootEnd + 3 <= n && at < UVPN && PermOk(UserPerm(perm))
    ensures Good(v) && Reaches(Boot(n, bootEnd), v)
    ensures |BootFree(n, bootEnd)| >= 3 && v.free == BootFree(n, bootEnd)[3..]
    ensures d == n - 1 && v.dirs == {d} && v.ptes == map[Loc(d, at) := Word(n - 2, UserPerm(perm).fl)]
    ensures v.tabs == map[Slot(d, at / 1024) := n - 3]
  {
    hide Inv, Small, InRange, PermOk, UserPerm, SysPageAlloc, BootFree;
    var v0 := Boot(n, bootEnd);
    BootGood(n, bootEnd);
    BootTop(n, bootEnd, 3);
    NewEnvAt(v0);
    var v1 := Apply(v0, NewEnv);
    d := n - 1;
    AllocNew(v1, d, at, perm);
    VaOk(at);
    v := Apply(v1, Alloc(d, at * PGSIZE, perm));
    ReachesSelf(v0);
    Then(v0, v0, NewEnv);
    Then(v0, v1, Alloc(d, at * PGSIZE, perm));
  }

  lemma OneWriter(v: VM, k: Loc, w: Word)
    requires Good(v) && v.ptes == map[k := w] && k.vpn != PFTEMP
    ensures Ready(v)
  {
    GoodRange(v);
    hide Inv, Small;
  }

  const RO := Word(0, 5)

  // pgfault makes a page writable that its environment only had for reading.
  lemma FaultGivesWrite(n: nat, bootEnd: nat) returns (v: VM, d: nat)
    requires 256 <= bootEnd && bootEnd + 5 <= n
    ensures Reaches(Boot(n, bootEnd), v) && Ready(v) && d in v.dirs && 0 in View(v)[d] && !View(v)[d][0].w
    ensures Loc(d, 0) in v.ptes && Pgfault(v, d, 0).Ok? && Ready(Pgfault(v, d, 0).value)
    ensures View(Pgfault(v, d, 0).value) == View(v)[d := View(v)[d][0 := View(v)[d][0].(w := true)]]
  {
    hide Inv, Small, SysPageAlloc, Pgfault, BootFree, Reaches;
    assert PermOk(UserPerm(RO)) && UserPerm(RO) == RO && PermOk(UserPerm(PUW));
    v, d := OnePage(n, bootEnd, 0, RO);
    OneWriter(v, Loc(d, 0), Word(n - 2, 5));
    BootTop(n, bootEnd, 5);
    AllocNew(v, d, PFTEMP, PUW);
    CowRuns.PgfaultWorks(v, d, 0);
    PgfaultView(v, d, 0);
    InSpace(v, d, 0);
    assert View(v)[d] == SpaceOf(v, d);
    assert !MayWrite(Word(n - 2, 5));
  }

  // ---- sys_page_map ----------------------------------------------------------------------

  lemma OrTwo(f: nat)
    requires f % 4 == 0
    ensures BitOr(f, 2) == f + 2
  {
    assert BitOr(f / 2 / 2, 0) == f / 2 / 2;
    assert BitOr(f / 2, 1) == 2 * BitOr(f / 2 / 2, 0) + 1;
  }

  // An environment with a read-only page and a writable page next to it in memory maps the writable
  // one with bit 13 of perm set: the call succeeds, the new entry names the read-only page and lets
  // the environment write to it, and the counts are wrong from then on.
  lemma RightsGrow(n: nat, bootEnd: nat) returns (v: VM, d: nat, f: nat)
    requires 256 <= bootEnd && bootEnd + 5 <= n && n % 4 == 0
    ensures Reaches(Boot(n, bootEnd), v) && Good(v) && d in v.dirs && ReadOnly(v, f)
    ensures Loc(d, 1) in v.ptes && v.ptes[Loc(d, 1)].pn != f
    ensures InRange(v)
    ensures var (w, r) := SysPageMap(v, d, PGSIZE, d, 2 * PGSIZE, Word(2, PTE_W));
      && r == 0 && Loc(d, 2) in w.ptes && w.ptes[Loc(d, 2)].pn == f && Writable(w.ptes[Loc(d, 2)])
      && !Guarded(v, w, f) && !Good(w)
  {
    hide Inv, Small, SysPageAlloc, BootFree, Reaches, Put, InRange;
    assert PermOk(UserPerm(RO)) && UserPerm(RO) == RO && PermOk(UserPerm(PUW)) && UserPerm(PUW) == PUW;
    var v1: VM;
    v1, d := OnePage(n, bootEnd, 0, RO);
    f := n - 2;
    BootTop(n, bootEnd, 5);
    AllocTwo(v1, d);
    v := Apply(v1, Alloc(d, PGSIZE, PUW));
    Then(Boot(n, bootEnd), v1, Alloc(d, PGSIZE, PUW));
    assert v.ptes == map[Loc(d, 0) := Word(f, 5), Loc(d, 1) := Word(n - 4, 7)];
    OneReader(v, Loc(d, 0), Loc(d, 1), f);
    OrTwo(n - 4);
    var perm := Word(2, PTE_W);
    MapSteps(v, d, PGSIZE, d, 2 * PGSIZE, perm);
    MapKeepsIff(v, d, PGSIZE, d, 2 * PGSIZE, perm);
    MapGuardsIff(v, d, PGSIZE, d, 2 * PGSIZE, perm, f);
    assert Writable(perm) && UserPerm(perm) == Word(2, 7);
  }

  lemma AllocTwo(v: VM, d: nat)
    requires Good(v) && d in v.dirs && Loc(d, 1) !in v.ptes && |v.free| >= 2 && Slot(d, 0) in v.tabs
    ensures Allowed(v, Alloc(d, PGSIZE, PUW)) && Good(Apply(v, Alloc(d, PGSIZE, PUW)))
    ensures var w := Apply(v, Alloc(d, PGSIZE, PUW));
      w.dirs == v.dirs && w.tabs == v.tabs && w.ptes == v.ptes[Loc(d, 1) := Word(v.free[0], 7)]
  {
    hide Inv, Small, SysPageAlloc, InRange;
    AllocFlags();
    AllocNew(v, d, 1, PUW);
  }

  lemma AllocFlags()
    ensures PermOk(UserPerm(PUW)) && UserPerm(PUW) == PUW
  {
  }

  lemma OneReader(v: VM, k: Loc, q: Loc, f: nat)
    requires Good(v) && k != q && q in v.ptes && v.ptes == map[k := Word(f, 5), q := v.ptes[q]] && v.ptes[q].pn != f
    ensures ReadOnly(v, f)
  {
    assert k in Maps(v.ptes, f);
    GoodRange(v);
    hide Inv, Small;
  }

  // ---- env_page_alloc --------------------------------------------------------------------

  // m environments more.
  lemma {:induction false} NewEnvs(v0: VM, v: VM, m: nat) returns (w: VM)
    requires Reaches(v0, v) && Good(v) && v.tabs == map[] && m <= |v.free|
    ensures Reaches(v0, w) && Good(w) && w.tabs == map[] && w.free == v.free[m..]
    ensures v.dirs <= w.dirs && (m > 0 ==> v.free[0] in w.dirs) && w.ptes == v.ptes && Leaked(w) == Leaked(v)
    decreases m
  {
    hide Inv, Small, Reaches, Leaked;
    if m == 0 {
      w := v;
    } else {
      NewEnvAt(v);
      ApplyLeaks(v, NewEnv);
      Then(v0, v, NewEnv);
      w := NewEnvs(v0, Apply(v, NewEnv), m - 1);
    }
  }

  // With all frames but one taken by the directories of new environments, a sys_page_alloc fails
  // and the last frame is lost. The environments are at most 1023, fewer than NENV.
  lemma FrameLost(n: nat, bootEnd: nat) returns (v: VM, d: nat)
    requires 2 <= |BootFree(n, bootEnd)| <= 1024
    ensures Reaches(Boot(n, bootEnd), v) && Good(v) && d in v.dirs && Leaked(v) == {} && |v.free| == 1
    ensures InRange(v) && SysPageAlloc(v, d, 0, PUW).1 == E_NO_MEM && Leaked(SysPageAlloc(v, d, 0, PUW).0) == {v.free[0]}
  {
    hide Inv, Small, Reaches, BootFree;
    var v0 := Boot(n, bootEnd);
    BootGood(n, bootEnd);
    ReachesSelf(v0);
    v := NewEnvs(v0, v0, |v0.free| - 1);
    d := v0.free[0];
    assert PermOk(PUW) && UserPerm(PUW) == PUW;
    GoodInRange(v);
    hide InRange;
    EnvPageAllocLeaks(v, Loc(d, 0), PUW);
  }


  // ---- fork_v0 ---------------------------------------------------------------------------

  lemma {:induction false} SkipTo(v: VM, p: nat, c: nat, n: nat, m: nat)
    requires Good(v) && p in v.dirs && c in v.dirs && p != c && n <= m <= UVPN
    requires forall i :: n <= i < m ==> Loc(p, i) !in v.ptes
    ensures ZeroPages(v, p, c, n) == ZeroPages(v, p, c, m)
    decreases m - n
  {
    hide Good, DupOrShare;
    if n < m {
      SkipTo(v, p, c, n + 1, m);
    }
  }

  // A parent with one page: the loop is the handing on of that page.
  lemma OneTurn(v: VM, p: nat, c: nat, at: nat)
    requires Good(v) && p in v.dirs && c in v.dirs && p != c && at < UVPN && Loc(p, at) in v.ptes
    requires (forall i :: Loc(p, i) in v.ptes ==> i == at) && DupOrShare(v, p, c, at).Ok?
    ensures ZeroPages(v, p, c, 0).Ok?
  {
    hide Inv, Small, DupOrShare, Passed;
    SkipTo(v, p, c, 0, at);
    DupOrShareEffect(v, p, c, at);
    var w := DupOrShare(v, p, c, at).value;
    TurnedGood(v, w, p, c, at);
    TurnCells(v, w, p, c, at);
    SkipTo(w, p, c, at + 1, UVPN);
  }

  lemma CopyWorks(v: VM, p: nat, c: nat, at: nat)
    requires Good(v) && p in v.dirs && c in v.dirs && p != c && at < UVPN && Loc(p, at) in v.ptes
    requires Copied(v.ptes[Loc(p, at)]) && Loc(c, at) !in v.ptes && |v.free| >= 2 && Slot(p, UTEMP / 1024) in v.tabs
    ensures DupOrShare(v, p, c, at).Ok?
  {
    hide Inv, Small, SysPageAlloc, SysPageMap, SysPageUnmap, FilteredPerm, CopyPage, Content, ZeroPage, Io;
    var perm := FilteredPerm(v.ptes[Loc(p, at)]);
    FilteredFlags(v.ptes[Loc(p, at)]);
    assert PermOk(PUW);
    AllocNew(v, c, at, perm);
    AllocFiltered(v, c, at, perm);
    var w := SysPageAlloc(v, c, at * PGSIZE, perm).0;
    NewPageCount(v, w, Loc(c, at), v.free[0]);
    MapAt(w, Loc(c, at), Loc(p, UTEMP), perm);
  }

  // fork_v0 of an environment with one writable page, at UTEMP: it succeeds and the page is gone.
  lemma ForkLosesTemp(n: nat, bootEnd: nat) returns (v: VM, p: nat)
    requires 256 <= bootEnd && bootEnd + 6 <= n
    ensures Reaches(Boot(n, bootEnd), v) && Ready(v) && p in v.dirs && ForkZero(v, p).Ok? && LosesTemp(v, p)
    ensures var w := ForkZero(v, p).value.0; Mapped(w) && UTEMP in View(v)[p] && p in View(w) && UTEMP !in View(w)[p]
  {
    hide Inv, Small, SysPageAlloc, BootFree, Reaches, ZeroPages, DupOrShare, Create, SpaceOf, CellOf, InRange;
    assert PermOk(UserPerm(PUW)) && UserPerm(PUW) == PUW;
    v, p := OnePage(n, bootEnd, UTEMP, PUW);
    OneWriter(v, Loc(p, UTEMP), Word(n - 2, 7));
    BootTop(n, bootEnd, 6);
    GoodInRange(v);
    ForkOne(v, p, UTEMP);
    assert Copies(v, p, 0, UVPN) by {
      assert Copied(v.ptes[Loc(p, UTEMP)]);
    }
    ForkZeroEffect(v, p);
    InSpace(v, p, UTEMP);
    assert View(v)[p] == SpaceOf(v, p);
  }

  // fork_v0 of an environment with one page, marked copy-on-write: it succeeds, and the child may
  // only read the page, which the parent may still write to.
  lemma ForkMissesPending(n: nat, bootEnd: nat) returns (v: VM, p: nat)
    requires 256 <= bootEnd && bootEnd + 6 <= n
    ensures Reaches(Boot(n, bootEnd), v) && Ready(v) && p in v.dirs && ForkZero(v, p).Ok? && PendingCopy(v, p)
    ensures var (w, c) := ForkZero(v, p).value;
      Mapped(w) && 0 in View(v)[p] && View(v)[p][0].w && c in View(w) && 0 in View(w)[c] && !View(w)[c][0].w
  {
    hide Inv, Small, SysPageAlloc, BootFree, Reaches, ZeroPages, DupOrShare, Create, SpaceOf, CellOf, InRange;
    var pte := Word(n - 2, 0x805);
    var perm := Word(0, 0x805);
    assert PermOk(UserPerm(perm)) && UserPerm(perm).fl == 0x805 && Cow(pte) && !Writable(pte) && !Copied(pte);
    v, p := OnePage(n, bootEnd, 0, perm);
    OneWriter(v, Loc(p, 0), pte);
    BootTop(n, bootEnd, 6);
    GoodInRange(v);
    ForkOne(v, p, 0);
    ForkZeroEffect(v, p);
    InSpace(v, p, 0);
    assert View(v)[p] == SpaceOf(v, p) && CellOf(v, Loc(p, 0)).w by {
      CellWrites(v, Loc(p, 0));
    }
    assert Reached(v, p, 0, 0) && Passed(v, p, 0) == HandedOn(v, Loc(p, 0));
  }

  lemma CellWrites(v: VM, k: Loc)
    requires Mapped(v) && k in v.ptes
    ensures CellOf(v, k).w == MayWrite(v.ptes[k])
  {
  }

  lemma ShareWorks(v: VM, p: nat, c: nat, at: nat)
    requires Good(v) && p in v.dirs && c in v.dirs && p != c && at < UVPN && Loc(p, at) in v.ptes
    requires !Copied(v.ptes[Loc(p, at)]) && v.free != [] && (forall k :: k in v.ptes ==> k == Loc(p, at))
    ensures DupOrShare(v, p, c, at).Ok?
  {
    hide Inv, Small, SysPageMap, FilteredPerm, Content, Io, Writable;
    var f := v.ptes[Loc(p, at)].pn;
    FilteredFlags(v.ptes[Loc(p, at)]);
    SrcFacts(v, Loc(p, at));
    DataRef(v, f);
    assert Maps(v.ptes, f) == {Loc(p, at)};
    MapAt(v, Loc(p, at), Loc(c, at), FilteredPerm(v.ptes[Loc(p, at)]));
  }

  lemma ForkOne(v: VM, p: nat, at: nat)
    requires Ready(v) && p in v.dirs && at < UVPN && Loc(p, at) in v.ptes && (forall k :: k in v.ptes ==> k == Loc(p, at))
    requires Copied(v.ptes[Loc(p, at)]) ==> Slot(p, UTEMP / 1024) in v.tabs
    requires |v.free| >= 3
    ensures ForkZero(v, p).Ok?
  {
    hide Inv, Small, SysPageAlloc, ZeroPages, DupOrShare, View, SpaceOf, Excl, Copied;
    GoodRange(v);
    CreateView(v);
    CreateGood(v);
    NewEnvAt(v);
    var w, c := Create(v).0, v.free[0];
    assert w == Apply(v, NewEnv);
    NoEntry(v, c, at);
    if Copied(v.ptes[Loc(p, at)]) {
      CopyWorks(w, p, c, at);
    } else {
      ShareWorks(w, p, c, at);
    }
    OneTurn(w, p, c, at);
  }

  lemma NoEntry(v: VM, d: nat, n: nat)
    requires Good(v) && d !in v.dirs
    ensures Loc(d, n) !in v.ptes
  {
  }
}
