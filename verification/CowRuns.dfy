/**
 * Runs of user programs under copy-on-write fork: system call sequences of different environments
 * interleave between any two pages a fork hands on, and what fails stops its own environment only.
 */
module CowRuns {
  import opened Words
  import opened Vm
  import opened VmInv
  import opened Teardowns
  import opened Syscalls
  import opened CowFork

  // ---- What environments do --------------------------------------------------------------

  // A fork under way: the child, and the page its loop looks at next.
  datatype Progress = Progress(child: nat, next: nat)

  // Forks under way by parent; children not yet runnable; environments that panicked.
  datatype Control = Control(forks: map<nat, Progress>, embryos: set<nat>, stopped: set<nat>)

  // fork is Begin (sys_exofork), one Dup for every page number, and End (the child's exception
  // stack, then its status). Handler is the first set_pgfault_handler.
  datatype Op =
    | Handler(d: nat)
    | Begin(d: nat)
    | Dup(d: nat)
    | End(d: nat)
    | Write(d: nat, n: nat, off: nat, x: Word)
    | Read(d: nat, n: nat, off: nat)
    | Exit(d: nat)

  // What a user program can tell: its child, the word it read, that it panicked.
  datatype Event = Did | Child(c: nat) | Got(x: Word) | Failed

  predicate Acts(e: map<nat, Space>, k: Control, d: nat) { d in e && d !in k.embryos && d !in k.stopped }

  // The next operation of an environment that can act: it accesses pages it sees, stores to pages
  // it may write to, and goes through its forks in order. Anything that is there may end.
  predicate Next(e: map<nat, Space>, k: Control, op: Op) {
    match op
    case Handler(d) => Acts(e, k, d)
    case Begin(d) => Acts(e, k, d) && d !in k.forks
    case Dup(d) => Acts(e, k, d) && d in k.forks && k.forks[d].next < UVPN
    case End(d) => Acts(e, k, d) && d in k.forks && k.forks[d].next == UVPN
    case Write(d, n, off, _) => Acts(e, k, d) && n in e[d] && e[d][n].w && off < 1024
    case Read(d, n, off) => Acts(e, k, d) && n in e[d] && off < 1024
    case Exit(d) => d in e && d !in k.embryos
  }

  function Move(k: Control, op: Op, ev: Event): Control {
    var d := op.d;
    if ev == Failed then k.(stopped := k.stopped + {d})
    else
      match op
      case Begin(_) => if ev.Child? then k.(forks := k.forks[d := Progress(ev.c, 0)], embryos := k.embryos + {ev.c}) else k
      case Dup(_) => if d in k.forks then k.(forks := k.forks[d := k.forks[d].(next := k.forks[d].next + 1)]) else k
      case End(_) => if d in k.forks then k.(forks := k.forks - {d}, embryos := k.embryos - {k.forks[d].child}) else k
      case Exit(_) => k.(forks := k.forks - {d}, stopped := k.stopped - {d})
      case _ => k
  }

  // ---- The eager machine -----------------------------------------------------------------

  // Every environment owns its pages; a Dup copies the parent's page as it is at that moment. What
  // failed changes nothing.
  function EagerStep(e: map<nat, Space>, k: Control, op: Op, ev: Event): map<nat, Space>
    requires Next(e, k, op)
  {
    if ev == Failed then e
    else
      match op
      case Begin(_) => if ev.Child? then e[ev.c := map[]] else e
      case Dup(d) =>
        CopyTo(e, d, k.forks[d].child, k.forks[d].next)
      case Write(d, n, off, x) => e[d := e[d][n := e[d][n].(page := e[d][n].page[off := x])]]
      case Exit(d) => e - {d}
      case _ => e
  }

  function WithPage(m: Space, n: nat, x: Cell): Space { m[n := x] }

  // Page n of p becomes page n of c, if p has one.
  function CopyTo(e: map<nat, Space>, p: nat, c: nat, n: nat): map<nat, Space>
    requires p in e
  {
    if n in e[p] && c in e then e[c := WithPage(e[c], n, e[p][n])] else e
  }

  // What the eager machine lets the program see; children and failures are as given.
  function EagerEvent(e: map<nat, Space>, k: Control, op: Op, ev: Event): Event
    requires Next(e, k, op)
  {
    if op.Read? then Got(e[op.d][op.n].page[op.off]) else ev
  }

  // ---- The machine with copy-on-write fork -----------------------------------------------

  ghost predicate ControlOk(e: map<nat, Space>, k: Control) {
    && k.embryos <= e.Keys && k.forks.Keys <= e.Keys && k.stopped <= e.Keys
    && (forall d :: d in k.forks ==> d !in k.embryos && k.forks[d].child in k.embryos && k.forks[d].next <= UVPN)
    && (forall d, f :: d in k.forks && f in k.forks && k.forks[d].child == k.forks[f].child ==> d == f)
  }

  // The page a Dup hands on is not mapped so often that its 16-bit count would wrap around.
  ghost predicate CountsFit(v: VM, k: Control, op: Op) {
    op.Dup? && op.d in k.forks ==>
      var src := Loc(op.d, k.forks[op.d].next);
      src in v.ptes && v.ptes[src].pn < |v.ref| ==> v.ref[v.ptes[src].pn] < 65534
  }

  // A store, after pgfault if the entry is read-only; when pgfault finds no page it panics.
  function WriteStep(v: VM, d: nat, n: nat, off: nat, x: Word): (VM, Event)
    requires Ready(v) && d in v.dirs && Loc(d, n) in v.ptes && n != PFTEMP && n != XSTK && off < 1024
  {
    if Writable(v.ptes[Loc(d, n)]) then (Store(v, Loc(d, n), off, x), Did)
    else
      match Pgfault(v, d, n)
      case Ok(u) =>
        PgfaultView(v, d, n);
        (Store(u, Loc(d, n), off, x), Did)
      case _ =>
        GoodRange(v);
        (SysPageAlloc(v, d, PFTEMP * PGSIZE, PUW).0, Failed)
  }

  // One turn of the loop of fork.
  function DupStep(v: VM, p: nat, c: nat, n: nat): (VM, Event)
    requires Ready(v) && p in v.dirs && c in v.dirs && p != c && n < UVPN
  {
    if n == XSTK || Loc(p, n) !in v.ptes then (v, Did)
    else
      match Duppage(v, p, c, n)
      case Ok(w) => (w, Did)
      case _ => (v, Failed)
  }

  ghost function CowStep(v: VM, k: Control, op: Op): (VM, Event)
    requires Ready(v) && ControlOk(View(v), k) && Next(View(v), k, op)
  {
    GoodRange(v);
    match op
    case Handler(d) => (SysPageAlloc(v, d, XSTK * PGSIZE, PUW).0, Did)
    case Begin(d) => if v.free == [] then (v, Failed) else (Create(v).0, Child(v.free[0]))
    case Dup(d) =>
      DupStep(v, d, k.forks[d].child, k.forks[d].next)
    case End(d) =>
      var (w, r) := SysPageAlloc(v, k.forks[d].child, XSTK * PGSIZE, PUW);
      (w, if r < 0 then Failed else Did)
    case Write(d, n, off, x) =>
      Visible(v, d, n);
      WriteStep(v, d, n, off, x)
    case Read(d, n, off) =>
      Visible(v, d, n);
      (v, Got(v.data[v.ptes[Loc(d, n)].pn][off]))
    case Exit(d) =>
      ExitFacts(v, d);
      (Teardown(v, d), Did)
  }

  // A page in view is mapped, and neither temporary nor part of the exception stack.
  lemma Visible(v: VM, d: nat, n: nat)
    requires Ready(v) && d in v.dirs && n in View(v)[d]
    ensures Loc(d, n) in v.ptes && n < UVPN && n != XSTK && n != PFTEMP && View(v)[d][n] == CellOf(v, Loc(d, n))
    ensures View(v)[d] == SpaceOf(v, d) && v.ptes[Loc(d, n)].pn in v.data
  {
    assert View(v)[d] == SpaceOf(v, d);
    InSpace(v, d, n);
  }

  // ---- What fails changes nothing that is seen -------------------------------------------

  lemma DupFails(v: VM, p: nat, c: nat, n: nat)
    requires Ready(v) && p in v.dirs && c in v.dirs && p != c && Loc(p, n) in v.ptes
    requires v.ptes[Loc(p, n)].pn < |v.ref| ==> v.ref[v.ptes[Loc(p, n)].pn] < 65534
    ensures Duppage(v, p, c, n) == Stop ==> !CanWalk(v, Loc(c, n))
    ensures Duppage(v, p, c, n) != Wrap
  {
    var src, dst, pte := Loc(p, n), Loc(c, n), v.ptes[Loc(p, n)];
    SrcFacts(v, src);
    DupPermFlags(pte);
    hide InvX, Small, Content, SysPageMap, DupPerm, CowPerm, Writable, Cow, Excl;
    if MayWrite(pte) {
      MapAt(v, src, dst, CowPerm(pte));
      var (v1, r1) := SysPageMap(v, p, n * PGSIZE, c, n * PGSIZE, CowPerm(pte));
      if r1 >= 0 {
        CountUp(v, v1, dst, pte.pn, CowPerm(pte).fl);
        MapAt(v1, src, src, CowPerm(pte));
        SrcTable(v1, src);
      }
    } else {
      MapAt(v, src, dst, DupPerm(pte));
    }
  }

  lemma SrcTable(v: VM, k: Loc)
    requires Good(v) && k in v.ptes
    ensures CanWalk(v, k)
  {
  }

  // pgfault panics only when there is no page for it; then every view is as before.
  lemma PgfaultFails(v: VM, d: nat, n: nat)
    requires Ready(v) && d in v.dirs && Loc(d, n) in v.ptes && n != PFTEMP && Pgfault(v, d, n) == Stop
    ensures InRange(v)
    ensures var w := SysPageAlloc(v, d, PFTEMP * PGSIZE, PUW).0; Ready(w) && w.dirs == v.dirs && View(w) == View(v)
  {
    hide InvX, Small, Excl, SysPageAlloc, View;
    AllocAt(v, d, PFTEMP);
    var (w, r) := SysPageAlloc(v, d, PFTEMP * PGSIZE, PUW);
    GoodRange(v);
    GoodRange(w);
    if r == 0 {
      PgfaultWorks(v, d, n);
    } else {
      SameExcl(v, w);
      SameView(v, w);
    }
  }

  lemma SameExcl(v: VM, w: VM)
    requires Excl(v) && w.ptes == v.ptes
    ensures Excl(w)
  {
  }

  lemma PgfaultWorks(v: VM, d: nat, n: nat)
    requires Good(v) && d in v.dirs && Loc(d, n) in v.ptes && n != PFTEMP
    requires InRange(v) && SysPageAlloc(v, d, PFTEMP * PGSIZE, PUW).1 == 0
    ensures Pgfault(v, d, n).Ok?
  {
    hide InvX, Small, SysPageAlloc, SysPageMap, Content, CopyPage;
    GuardNeverFires(2, v.ptes[Loc(d, n)]);
    AllocAt(v, d, PFTEMP);
    SrcFacts(v, Loc(d, n));
    FaultCopyEffect(v, d, n);
    var u := FaultCopy(v, d, n).value;
    MapAt(u, Loc(d, PFTEMP), Loc(d, n), PUW);
    SrcTable(u, Loc(d, n));
  }

  // ---- One step --------------------------------------------------------------------------

  // Who is there after a step.
  ghost predicate Population(e: map<nat, Space>, u: map<nat, Space>, op: Op, ev: Event) {
    if op.Begin? && ev.Child? then ev.c !in e && u.Keys == e.Keys + {ev.c}
    else if op.Exit? then u.Keys == e.Keys - {op.d}
    else u.Keys == e.Keys
  }

  lemma ControlKeeps(e: map<nat, Space>, u: map<nat, Space>, k: Control, op: Op, ev: Event)
    requires ControlOk(e, k) && Next(e, k, op) && Population(e, u, op, ev)
    requires op.Exit? ==> ev == Did
    ensures ControlOk(u, Move(k, op, ev))
  {
  }

  lemma DupStepRefines(v: VM, p: nat, c: nat, n: nat)
    requires Ready(v) && p in v.dirs && c in v.dirs && p != c && n < UVPN
    requires Loc(p, n) in v.ptes && v.ptes[Loc(p, n)].pn < |v.ref| ==> v.ref[v.ptes[Loc(p, n)].pn] < 65534
    ensures var (w, ev) := DupStep(v, p, c, n);
      && Ready(w) && w.dirs == v.dirs && (ev == Did || ev == Failed)
      && View(w) == if ev == Failed then View(v) else CopyTo(View(v), p, c, n)
  {
    hide InvX, Small, Excl, SpaceOf, Duppage;
    InSpace(v, p, n);
    assert View(v)[p] == SpaceOf(v, p) && View(v)[c] == SpaceOf(v, c);
    if n != XSTK && Loc(p, n) in v.ptes {
      DupFails(v, p, c, n);
      if Duppage(v, p, c, n).Ok? {
        DuppageEffect(v, p, c, n);
      }
    }
  }

  lemma WriteStepRefines(v: VM, d: nat, n: nat, off: nat, x: Word)
    requires Ready(v) && d in v.dirs && Loc(d, n) in v.ptes && n != PFTEMP && n != XSTK && off < 1024
    requires MayWrite(v.ptes[Loc(d, n)])
    ensures var (w, ev) := WriteStep(v, d, n, off, x); var c := CellOf(v, Loc(d, n));
      && Ready(w) && w.dirs == v.dirs && (ev == Did || ev == Failed)
      && View(w) == if ev == Failed then View(v) else View(v)[d := SpaceOf(v, d)[n := c.(page := c.page[off := x])]]
  {
    hide InvX, Small, Excl, SpaceOf, Pgfault, View, Store, SysPageAlloc;
    var k := Loc(d, n);
    SrcFacts(v, k);
    if Writable(v.ptes[k]) {
      StoreView(v, k, off, x);
    } else {
      var w := Pgfault(v, d, n);
      PgfaultNoWrap(v, d, n);
      if w.Ok? {
        PgfaultView(v, d, n);
        StoreView(w.value, k, off, x);
        SpacesOfView(v, w.value, d);
        InSpace(v, d, n);
        InSpace(w.value, d, n);
      } else {
        PgfaultFails(v, d, n);
      }
    }
  }

  lemma SpacesOfView(v: VM, u: VM, d: nat)
    requires Mapped(v) && Mapped(u) && d in v.dirs && u.dirs == v.dirs && View(u) == View(v)
    ensures SpaceOf(u, d) == SpaceOf(v, d)
  {
    hide SpaceOf;
    assert View(u)[d] == SpaceOf(u, d) && View(v)[d] == SpaceOf(v, d);
  }

  lemma PgfaultNoWrap(v: VM, d: nat, n: nat)
    requires Good(v) && d in v.dirs && Loc(d, n) in v.ptes && n != PFTEMP
    ensures Pgfault(v, d, n) != Wrap
  {
    hide InvX, Small, SysPageAlloc, SysPageMap, SysPageUnmap;
  }

  // Every step of the machine with copy-on-write fork is that step of the eager machine, whatever
  // environments do between the pages of a fork, and the word read is the same.
  lemma StepRefines(v: VM, k: Control, op: Op)
    requires Ready(v) && ControlOk(View(v), k) && Next(View(v), k, op) && CountsFit(v, k, op)
    ensures var (w, ev) := CowStep(v, k, op);
      && Ready(w) && View(w) == EagerStep(View(v), k, op, ev) && EagerEvent(View(v), k, op, ev) == ev
      && ControlOk(View(w), Move(k, op, ev))
  {
    hide InvX, Small, Excl, SpaceOf, DupStep, WriteStep, Teardown, SysPageAlloc, Move;
    var (w, ev) := CowStep(v, k, op);
    GoodRange(v);
    match op {
      case Handler(d) => StackAlloc(v, d);
      case Begin(d) =>
        if v.free != [] { CreateView(v); }
      case Dup(d) => DupStepRefines(v, d, k.forks[d].child, k.forks[d].next);
      case End(d) => StackAlloc(v, k.forks[d].child);
      case Write(d, n, off, x) =>
        Visible(v, d, n);
        WriteStepRefines(v, d, n, off, x);
      case Read(d, n, off) => Visible(v, d, n);
      case Exit(d) => ExitView(v, d);
    }
    ControlKeeps(View(v), View(w), k, op, ev);
  }

  // An environment that runs out of memory stops itself: nobody sees a difference, and everybody
  // else can act as before.
  lemma FailureIsLocal(v: VM, k: Control, op: Op)
    requires Ready(v) && ControlOk(View(v), k) && Next(View(v), k, op) && CountsFit(v, k, op)
    requires CowStep(v, k, op).1 == Failed
    ensures var w := CowStep(v, k, op).0;
      Mapped(w) && View(w) == View(v) && forall d :: d != op.d ==>
        (Acts(View(w), Move(k, op, Failed), d) <==> Acts(View(v), k, d))
  {
    hide View, CowStep, ControlOk, CountsFit, Next, InvX, Small, Excl;
    StepRefines(v, k, op);
  }

  // ---- Runs ------------------------------------------------------------------------------

  ghost predicate Possible(v: VM, k: Control, ops: seq<Op>)
    requires Ready(v) && ControlOk(View(v), k)
    decreases |ops|
  {
    ops == [] ||
    (&& Next(View(v), k, ops[0]) && CountsFit(v, k, ops[0])
     && (StepRefines(v, k, ops[0]);
         var (w, ev) := CowStep(v, k, ops[0]);
         Possible(w, Move(k, ops[0], ev), ops[1..])))
  }

  // The state and control a run ends with, and what the programs saw.
  ghost function Run(v: VM, k: Control, ops: seq<Op>): (r: (VM, Control, seq<Event>))
    requires Ready(v) && ControlOk(View(v), k) && Possible(v, k, ops)
    ensures |r.2| == |ops|
    decreases |ops|
  {
    if ops == [] then (v, k, [])
    else
      StepRefines(v, k, ops[0]);
      var (w, ev) := CowStep(v, k, ops[0]);
      var (u, m, evs) := Run(w, Move(k, ops[0], ev), ops[1..]);
      (u, m, [ev] + evs)
  }

  // The same operations on the eager machine; children and failures as they were above. Stop is
  // an operation that is not possible.
  function EagerRun(e: map<nat, Space>, k: Control, ops: seq<Op>, evs: seq<Event>): (r: Outcome<(map<nat, Space>, Control, seq<Event>)>)
    requires |evs| == |ops|
    decreases |ops|
  {
    if ops == [] then Ok((e, k, []))
    else if !Next(e, k, ops[0]) then Stop
    else
      match EagerRun(EagerStep(e, k, ops[0], evs[0]), Move(k, ops[0], evs[0]), ops[1..], evs[1..])
      case Ok(r) => Ok((r.0, r.1, [EagerEvent(e, k, ops[0], evs[0])] + r.2))
      case _ => Stop
  }

  // Copy-on-write fork refines eager copying: in every run of forks, reads, writes, exits and
  // failures, with other environments and the parent itself acting between any two pages of a
  // fork, every word read is the one the eager machine reads, and at the end every environment
  // sees what it would see had each page been copied when the fork came to it.
  lemma {:induction false} CowRefinesEager(v: VM, k: Control, ops: seq<Op>)
    requires Ready(v) && ControlOk(View(v), k) && Possible(v, k, ops)
    ensures var (w, m, evs) := Run(v, k, ops);
      Ready(w) && ControlOk(View(w), m) && EagerRun(View(v), k, ops, evs) == Ok((View(w), m, evs))
    decreases |ops|
  {
    hide Ready, CowStep, EagerStep, EagerEvent, View, Move, Next, ControlOk, CountsFit;
    if ops != [] {
      StepRefines(v, k, ops[0]);
      var (w, ev) := CowStep(v, k, ops[0]);
      var rest := ops[1..];
      CowRefinesEager(w, Move(k, ops[0], ev), rest);
      var evs := Run(w, Move(k, ops[0], ev), rest).2;
      assert ([ev] + evs)[1..] == evs;
    }
  }

  // ---- A fork as a whole -----------------------------------------------------------------

  // The child of p's fork has the pages the loop has passed, and no others.
  ghost predicate Copied(e: map<nat, Space>, k: Control, p: nat) {
    && p in e && p in k.forks && k.forks[p].child in e && k.forks[p].child != p
    && forall i: nat :: if i < k.forks[p].next then Same(e[k.forks[p].child], e[p], i) else i !in e[k.forks[p].child]
  }

  predicate Same(a: Space, b: Space, i: nat) { if i in b then i in a && a[i] == b[i] else i !in a }

  // The parent does nothing but go through its fork and read.
  predicate Quiet(op: Op, p: nat) { op.d == p ==> op.Dup? || op.Read? }

  lemma CopiedKeeps(e: map<nat, Space>, k: Control, p: nat, op: Op, ev: Event)
    requires ControlOk(e, k) && Next(e, k, op) && Copied(e, k, p) && Quiet(op, p) && (ev.Child? ==> ev.c !in e)
    requires ev == Failed ==> op.d != p
    ensures Copied(EagerStep(e, k, op, ev), Move(k, op, ev), p)
    ensures p in EagerStep(e, k, op, ev) && EagerStep(e, k, op, ev)[p] == e[p]
    ensures p in Move(k, op, ev).forks && Move(k, op, ev).forks[p].child == k.forks[p].child
  {
  }

  lemma MoveStopped(k: Control, op: Op, ev: Event, p: nat)
    requires p in k.stopped && Quiet(op, p)
    ensures p in Move(k, op, ev).stopped
  {
  }

  lemma {:induction false} StaysStopped(v: VM, k: Control, ops: seq<Op>, p: nat)
    requires Ready(v) && ControlOk(View(v), k) && Possible(v, k, ops) && p in k.stopped
    requires forall i :: 0 <= i < |ops| ==> Quiet(ops[i], p)
    ensures p in Run(v, k, ops).1.stopped
    decreases |ops|
  {
    hide Ready, CowStep, View, Next, ControlOk, CountsFit, Move, Quiet, EagerStep, EagerEvent;
    if ops != [] {
      assert Quiet(ops[0], p);
      StepRefines(v, k, ops[0]);
      var (w, ev) := CowStep(v, k, ops[0]);
      MoveStopped(k, ops[0], ev, p);
      StaysStopped(w, Move(k, ops[0], ev), ops[1..], p);
    }
  }

  lemma FreshChild(v: VM, k: Control, op: Op)
    requires Ready(v) && ControlOk(View(v), k) && Next(View(v), k, op) && CountsFit(v, k, op)
    ensures var ev := CowStep(v, k, op).1; ev.Child? ==> ev.c !in View(v)
  {
    hide InvX, Small, Excl, SpaceOf, DupStep, WriteStep, Teardown, SysPageAlloc;
    GoodRange(v);
    if op.Begin? && v.free != [] {
      CreateView(v);
    }
    if op.Dup? {
      DupStepRefines(v, op.d, k.forks[op.d].child, k.forks[op.d].next);
    }
    if op.Write? {
      Visible(v, op.d, op.n);
      WriteStepRefines(v, op.d, op.n, op.off, op.x);
    }
  }

  // While the parent goes through its fork and others do as they like, the pages passed are copies.
  lemma {:induction false} QuietRun(v: VM, k: Control, ops: seq<Op>, p: nat)
    requires Ready(v) && ControlOk(View(v), k) && Possible(v, k, ops) && Copied(View(v), k, p)
    requires p in View(v) && p in k.forks
    requires forall i :: 0 <= i < |ops| ==> Quiet(ops[i], p)
    requires p !in Run(v, k, ops).1.stopped
    ensures var (w, m, _) := Run(v, k, ops);
      && Ready(w) && p in View(w) && View(w)[p] == View(v)[p] && p in m.forks
      && Copied(View(w), m, p) && m.forks[p].child == k.forks[p].child
    decreases |ops|
  {
    hide Good, Excl, Mapped, CowStep, EagerStep, EagerEvent, View, Move, Next, ControlOk, CountsFit, Copied, Quiet;
    if ops != [] {
      assert Quiet(ops[0], p);
      StepRefines(v, k, ops[0]);
      var (w, ev) := CowStep(v, k, ops[0]);
      var m := Move(k, ops[0], ev);
      var rest := ops[1..];
      if ev == Failed && ops[0].d == p {
        FailedStops(k, ops[0]);
        StaysStopped(w, m, rest, p);
      }
      FreshChild(v, k, ops[0]);
      CopiedKeeps(View(v), k, p, ops[0], ev);
      QuietRun(w, m, rest, p);
    }
  }

  lemma FailedStops(k: Control, op: Op)
    ensures op.d in Move(k, op, Failed).stopped
  {
  }

  // If the parent writes nothing between its first and last page, the child gets exactly what the
  // parent saw at sys_exofork, whatever all others did meanwhile.
  lemma WholeFork(v: VM, k: Control, ops: seq<Op>, p: nat)
    requires Ready(v) && ControlOk(View(v), k) && Next(View(v), k, Begin(p)) && v.free != []
    requires var (w, ev) := CowStep(v, k, Begin(p)); var m := Move(k, Begin(p), ev);
      && Ready(w) && ControlOk(View(w), m) && Possible(w, m, ops)
      && (forall i :: 0 <= i < |ops| ==> Quiet(ops[i], p))
      && var end := Run(w, m, ops).1; p !in end.stopped && (p in end.forks ==> end.forks[p].next == UVPN)
    ensures var (w, ev) := CowStep(v, k, Begin(p)); var c := v.free[0];
      var u := Run(w, Move(k, Begin(p), ev), ops).0;
      Ready(u) && c in View(u) && p in View(u) && View(u)[c] == View(v)[p] == View(u)[p]
  {
    var (w, ev) := CowStep(v, k, Begin(p));
    var m := Move(k, Begin(p), ev);
    BeginCopied(v, k, p);
    QuietRun(w, m, ops, p);
    var u, end := Run(w, m, ops).0, Run(w, m, ops).1;
    SpaceBound(u, p);
    SameSpace(View(u), end, p);
  }

  lemma BeginCopied(v: VM, k: Control, p: nat)
    requires Ready(v) && ControlOk(View(v), k) && Next(View(v), k, Begin(p)) && v.free != []
    ensures var (w, ev) := CowStep(v, k, Begin(p)); var m := Move(k, Begin(p), ev);
      Ready(w) && Copied(View(w), m, p) && m.forks[p].child == v.free[0] && View(w)[p] == View(v)[p]
  {
    hide InvX, Small, Excl, SpaceOf;
    GoodRange(v);
    CreateView(v);
  }

  lemma SpaceBound(v: VM, d: nat)
    requires Mapped(v) && d in v.dirs
    ensures d in View(v) && forall i :: i in View(v)[d] ==> i < UVPN
  {
  }

  lemma SameSpace(e: map<nat, Space>, k: Control, p: nat)
    requires Copied(e, k, p) && k.forks[p].next == UVPN && forall i :: i in e[p] ==> i < UVPN
    ensures e[k.forks[p].child] == e[p]
  {
    var a, b := e[k.forks[p].child], e[p];
    forall i: nat
      ensures i in a <==> i in b
      ensures i in a ==> a[i] == b[i]
    {
      assert if i < UVPN then Same(a, b, i) else i !in a;
    }
  }
}
