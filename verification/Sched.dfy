/**
 * Environments, CPUs and the priority scheduler (kern/sched.c, kern/env.c, kern/syscall.c,
 * kern/trap.c), as functions on the whole state. Everything a CPU does between taking and
 * releasing the big kernel lock is one event.
 */
module Sched {
  import opened EnvIds

  const MAX_PRIORITY := 10
  const MAX_TIMESLICES_BOOST := 1000
  const MAX_ENV_TIME_SLICES := 3

  const E_UNSPECIFIED := -1
  const E_BAD_ENV := -2
  const E_INVAL := -3
  const E_NO_MEM := -4
  const E_NO_FREE_ENV := -5
  const E_IPC_NOT_RECV := -7

  datatype Status = Free | Dying | Runnable | Running | NotRunnable

  // recving is env_ipc_recving.
  datatype Env = Env(id: int, parent: int, status: Status, priority: int, slices: int, cpunum: int, recving: bool)

  // A pointer to an environment, possibly null.
  datatype Slot = Null | At(slot: nat)

  // What a CPU is doing while it does not hold the lock. Tail: env_run has released the lock and
  // not yet written env_cpunum. Monitor: it looped in the monitor, so it keeps the lock.
  datatype Mode = Boot | User | Tail | Halted | Monitor

  datatype Cpu = Cpu(cur: Slot, mode: Mode)

  // free is env_free_list from its head; gens counts the allocations of each slot.
  datatype Sys = Sys(envs: seq<Env>, cpus: seq<Cpu>, boost: int, free: seq<nat>, gens: seq<nat>)

  // A kernel function either comes back to its caller or leaves for another environment.
  datatype Exit = Returned(s: Sys, r: int) | Left(s: Sys)

  // ---- Shape -----------------------------------------------------------------------------

  predicate Shape(s: Sys) {
    && |s.envs| == NENV && |s.gens| == NENV
    && (forall c :: 0 <= c < |s.cpus| && s.cpus[c].cur.At? ==> s.cpus[c].cur.slot < NENV)
    && (forall i :: 0 <= i < |s.free| ==> s.free[i] < NENV)
  }

  function Cur(s: Sys, c: nat): Slot
    requires c < |s.cpus|
  {
    s.cpus[c].cur
  }

  predicate Is(s: Sys, e: Slot, st: Status)
    requires Shape(s)
  {
    e.At? && e.slot < NENV && s.envs[e.slot].status == st
  }

  function SetStatus(s: Sys, e: nat, st: Status): (t: Sys)
    requires Shape(s) && e < NENV
    ensures Shape(t)
  {
    s.(envs := s.envs[e := s.envs[e].(status := st)])
  }

  function SetPriority(s: Sys, e: nat, p: int): (t: Sys)
    requires Shape(s) && e < NENV
    ensures Shape(t)
  {
    s.(envs := s.envs[e := s.envs[e].(priority := p)])
  }

  function SetCpu(s: Sys, c: nat, cpu: Cpu): (t: Sys)
    requires Shape(s) && c < |s.cpus| && (cpu.cur.At? ==> cpu.cur.slot < NENV)
    ensures Shape(t)
  {
    s.(cpus := s.cpus[c := cpu])
  }

  // ---- Priorities ------------------------------------------------------------------------

  function Reset(envs: seq<Env>): (r: seq<Env>)
    ensures |r| == |envs|
  {
    seq(|envs|, i requires 0 <= i < |envs| => envs[i].(priority := 1))
  }

  function BoostAll(s: Sys): (t: Sys)
    requires Shape(s)
    ensures Shape(t)
  {
    if s.boost + 1 == MAX_TIMESLICES_BOOST
    then s.(envs := Reset(s.envs), boost := 1)
    else s.(boost := s.boost + 1)
  }

  // The environment charged with a tick: every third tick of its own costs it one priority.
  function Charge(e: Env): Env {
    var n := e.slices + 1;
    if n % MAX_ENV_TIME_SLICES == 0 && e.priority < MAX_PRIORITY
    then e.(slices := n, priority := e.priority + 1)
    else e.(slices := n)
  }

  function UpdatePriority(s: Sys, c: nat): (t: Sys)
    requires Shape(s) && c < |s.cpus|
    ensures Shape(t)
  {
    match Cur(s, c)
    case Null => s
    case At(e) => BoostAll(s.(envs := s.envs[e := Charge(s.envs[e])]))
  }

  // ---- Choosing --------------------------------------------------------------------------

  function Ring(start: nat, i: nat): nat { (i + start) % NENV }

  // The scan of sched_pr from its i-th step on.
  function Scan(envs: seq<Env>, start: nat, i: nat, best: Slot, bestPriority: int): (r: Slot)
    requires |envs| == NENV && i <= NENV && (best.At? ==> best.slot < NENV)
    ensures r.At? ==> r.slot < NENV
    decreases NENV - i
  {
    if i == NENV then best else
    var k := Ring(start, i);
    if envs[k].status == Runnable && envs[k].priority == 1 then At(k)
    else if envs[k].status == Runnable && envs[k].priority < bestPriority
    then Scan(envs, start, i + 1, At(k), envs[k].priority)
    else Scan(envs, start, i + 1, best, bestPriority)
  }

  function Start(s: Sys, c: nat): nat
    requires Shape(s) && c < |s.cpus|
  {
    match Cur(s, c)
    case Null => 0
    case At(e) => Envx(s.envs[e].id) + 1
  }

  function Choose(s: Sys, c: nat): (r: Slot)
    requires Shape(s) && c < |s.cpus|
    ensures r.At? ==> r.slot < NENV
  {
    var found := Scan(s.envs, Start(s, c), 0, Null, MAX_PRIORITY + 1);
    var cur := Cur(s, c);
    if found == Null && Is(s, cur, Running) && s.envs[cur.slot].cpunum == c then cur else found
  }

  // ---- Running ---------------------------------------------------------------------------

  function EnvRun(s: Sys, c: nat, e: nat): (t: Sys)
    requires Shape(s) && c < |s.cpus| && e < NENV
    ensures Shape(t) && |t.cpus| == |s.cpus|
  {
    var cur := Cur(s, c);
    var s1 := if Is(s, cur, Running) then SetStatus(s, cur.slot, Runnable) else s;
    SetStatus(SetCpu(s1, c, Cpu(At(e), Tail)), e, Running)
  }

  predicate Alive(e: Env) { e.status in {Runnable, Running, Dying} }

  function SchedHalt(s: Sys, c: nat): (t: Sys)
    requires Shape(s) && c < |s.cpus|
    ensures Shape(t) && |t.cpus| == |s.cpus|
  {
    if exists i :: 0 <= i < NENV && Alive(s.envs[i])
    then SetCpu(s, c, Cpu(Null, Halted))
    else SetCpu(s, c, s.cpus[c].(mode := Monitor))
  }

  function SchedYield(s: Sys, c: nat): (t: Sys)
    requires Shape(s) && c < |s.cpus|
    ensures Shape(t) && |t.cpus| == |s.cpus|
  {
    match Choose(s, c)
    case At(e) => EnvRun(s, c, e)
    case Null => SchedHalt(s, c)
  }

  // ---- Environments come and go ----------------------------------------------------------

  // memory says whether env_setup_vm found a page for the directory.
  function EnvAlloc(s: Sys, parent: int, memory: bool): (r: (Sys, int, nat))
    requires Shape(s)
    ensures Shape(r.0) && r.0.cpus == s.cpus && (r.1 == 0 ==> r.2 < NENV)
  {
    if s.free == [] then (s, E_NO_FREE_ENV, 0)
    else if !memory then (s, E_NO_MEM, 0)
    else
      var e := s.free[0];
      var env := s.envs[e].(id := NextId(s.envs[e].id, e), parent := parent, status := Runnable, recving := false);
      (s.(envs := s.envs[e := env], free := s.free[1..], gens := s.gens[e := s.gens[e] + 1]), 0, e)
  }

  function EnvCreate(s: Sys, memory: bool): (r: (Sys, int))
    requires Shape(s)
    ensures Shape(r.0) && |r.0.cpus| == |s.cpus|
  {
    var (t, err, e) := EnvAlloc(s, 0, memory);
    if err < 0 then (t, err) else (SetPriority(t, e, 1), 0)
  }

  function EnvFree(s: Sys, e: nat): (t: Sys)
    requires Shape(s) && e < NENV
    ensures Shape(t) && |t.cpus| == |s.cpus|
  {
    SetStatus(s, e, Free).(free := [e] + s.free)
  }

  // Freeing the running environment: it is no longer current, and something else runs.
  function ReapCurrent(s: Sys, c: nat): (t: Sys)
    requires Shape(s) && c < |s.cpus| && Cur(s, c).At?
    ensures Shape(t) && |t.cpus| == |s.cpus|
  {
    SchedYield(SetCpu(EnvFree(s, Cur(s, c).slot), c, s.cpus[c].(cur := Null)), c)
  }

  function EnvDestroy(s: Sys, c: nat, e: nat): (x: Exit)
    requires Shape(s) && c < |s.cpus| && e < NENV
    ensures Shape(x.s) && |x.s.cpus| == |s.cpus|
  {
    if s.envs[e].status == Running && Cur(s, c) != At(e) then Returned(SetStatus(s, e, Dying), 0)
    else if Cur(s, c) == At(e) then Left(ReapCurrent(s, c))
    else Returned(EnvFree(s, e), 0)
  }

  // ---- System calls ----------------------------------------------------------------------

  // envid2env; Null stands for -E_BAD_ENV.
  function Envid2env(s: Sys, c: nat, id: int, check: bool): (r: Slot)
    requires Shape(s) && c < |s.cpus| && Cur(s, c).At?
    ensures r.At? ==> r.slot < NENV
  {
    var cur := Cur(s, c).slot;
    if id == 0 then At(cur)
    else
      var e := Envx(id);
      if s.envs[e].status == Free || s.envs[e].id != id then Null
      else if check && e != cur && s.envs[e].parent != s.envs[cur].id then Null
      else At(e)
  }

  function GetPriority(s: Sys, c: nat, id: int): int
    requires Shape(s) && c < |s.cpus| && Cur(s, c).At?
  {
    match Envid2env(s, c, id, false)
    case Null => -1
    case At(e) => s.envs[e].priority
  }

  function Exofork(s: Sys, c: nat, memory: bool): (x: Exit)
    requires Shape(s) && c < |s.cpus| && Cur(s, c).At?
    ensures Shape(x.s) && |x.s.cpus| == |s.cpus|
  {
    var (t, err, e) := EnvAlloc(s, s.envs[Cur(s, c).slot].id, memory);
    if err != 0 then Returned(t, err) else
    var u := SetStatus(t, e, NotRunnable);
    var p := GetPriority(u, c, u.envs[e].parent);
    Returned(u.(envs := u.envs[e := u.envs[e].(priority := p, slices := 0)]), u.envs[e].id)
  }

  function EnvSetStatus(s: Sys, c: nat, id: int, st: Status): (x: Exit)
    requires Shape(s) && c < |s.cpus| && Cur(s, c).At?
    ensures Shape(x.s) && |x.s.cpus| == |s.cpus|
  {
    if st != Runnable && st != NotRunnable then Returned(s, E_INVAL) else
    match Envid2env(s, c, id, true)
    case Null => Returned(s, E_BAD_ENV)
    case At(e) => Returned(SetStatus(s, e, st), 0)
  }

  function Destroy(s: Sys, c: nat, id: int): (x: Exit)
    requires Shape(s) && c < |s.cpus| && Cur(s, c).At?
    ensures Shape(x.s) && |x.s.cpus| == |s.cpus|
  {
    match Envid2env(s, c, id, true)
    case Null => Returned(s, E_BAD_ENV)
    case At(e) => EnvDestroy(s, c, e)
  }

  // A better priority is a smaller number. The caller may raise neither itself nor its children.
  function IncPriority(s: Sys, c: nat, id: int): (x: Exit)
    requires Shape(s) && c < |s.cpus| && Cur(s, c).At?
    ensures Shape(x.s) && |x.s.cpus| == |s.cpus|
  {
    match Envid2env(s, c, id, false)
    case Null => Returned(s, E_UNSPECIFIED)
    case At(e) =>
      var cur := Cur(s, c).slot;
      if e == cur || s.envs[e].parent == s.envs[cur].id then Returned(s, E_UNSPECIFIED)
      else if s.envs[e].priority != 1 then Returned(SetPriority(s, e, s.envs[e].priority - 1), 0)
      else Returned(s, 0)
  }

  function RedPriority(s: Sys, c: nat, id: int): (x: Exit)
    requires Shape(s) && c < |s.cpus| && Cur(s, c).At?
    ensures Shape(x.s) && |x.s.cpus| == |s.cpus|
  {
    match Envid2env(s, c, id, false)
    case Null => Returned(s, E_UNSPECIFIED)
    case At(e) =>
      if s.envs[e].priority < MAX_PRIORITY then Returned(SetPriority(s, e, s.envs[e].priority + 1), 0)
      else Returned(s, 0)
  }

  // sys_env_set_pgfault_upcall; mapped says whether the target may read the handler's page. If
  // not, user_mem_assert destroys the target and comes back unless that is the caller.
  function SetUpcall(s: Sys, c: nat, id: int, mapped: bool): (x: Exit)
    requires Shape(s) && c < |s.cpus| && Cur(s, c).At?
    ensures Shape(x.s) && |x.s.cpus| == |s.cpus|
  {
    match Envid2env(s, c, id, true)
    case Null => Returned(s, E_BAD_ENV)
    case At(e) => if mapped then Returned(s, 0) else EnvDestroy(s, c, e)
  }

  function SetRecving(s: Sys, e: nat, recving: bool): (t: Sys)
    requires Shape(s) && e < NENV
    ensures Shape(t)
  {
    s.(envs := s.envs[e := s.envs[e].(recving := recving)])
  }

  // sys_ipc_try_send without its page; page is 0, or the error its transfer ended with.
  function IpcSend(s: Sys, c: nat, id: int, page: int): (x: Exit)
    requires Shape(s) && c < |s.cpus| && Cur(s, c).At?
    ensures Shape(x.s) && |x.s.cpus| == |s.cpus|
  {
    match Envid2env(s, c, id, false)
    case Null => Returned(s, E_BAD_ENV)
    case At(e) =>
      if !s.envs[e].recving then Returned(s, E_IPC_NOT_RECV)
      else if page < 0 then Returned(s, page)
      else Returned(SetStatus(SetRecving(s, e, false), e, Runnable), 0)
  }

  // sys_ipc_recv: a rejected address leaves the flag set.
  function IpcRecv(s: Sys, c: nat, valid: bool): (x: Exit)
    requires Shape(s) && c < |s.cpus| && Cur(s, c).At?
    ensures Shape(x.s) && |x.s.cpus| == |s.cpus|
  {
    var e := Cur(s, c).slot;
    var t := SetRecving(s, e, true);
    if valid then Left(SchedYield(SetStatus(t, e, NotRunnable), c)) else Returned(t, E_INVAL)
  }

  // ---- Traps -----------------------------------------------------------------------------

  // Why user code entered the kernel. Other: a breakpoint, a spurious interrupt, a fault handed
  // to the upcall or a call that touches no environment. Crash: the environment is destroyed, as
  // by a fault without handler or sys_cputs of memory it may not read.
  datatype Cause =
    | Timer
    | Yield
    | Fork(memory: bool)
    | Set(id: int, st: Status)
    | Kill(id: int)
    | Inc(id: int)
    | Red(id: int)
    | Upcall(id: int, mapped: bool)
    | Send(id: int, page: int)
    | Recv(valid: bool)
    | Crash
    | Other

  function Dispatch(s: Sys, c: nat, why: Cause): (x: Exit)
    requires Shape(s) && c < |s.cpus| && Cur(s, c).At?
    ensures Shape(x.s) && |x.s.cpus| == |s.cpus|
  {
    match why
    case Timer => Left(SchedYield(UpdatePriority(s, c), c))
    case Yield => Left(SchedYield(s, c))
    case Fork(memory) => Exofork(s, c, memory)
    case Set(id, st) => EnvSetStatus(s, c, id, st)
    case Kill(id) => Destroy(s, c, id)
    case Inc(id) => IncPriority(s, c, id)
    case Red(id) => RedPriority(s, c, id)
    case Upcall(id, mapped) => SetUpcall(s, c, id, mapped)
    case Send(id, page) => IpcSend(s, c, id, page)
    case Recv(valid) => IpcRecv(s, c, valid)
    case Crash => Left(ReapCurrent(s, c))
    case Other => Returned(s, 0)
  }

  // The end of trap().
  function Resume(s: Sys, c: nat): (t: Sys)
    requires Shape(s) && c < |s.cpus|
    ensures Shape(t) && |t.cpus| == |s.cpus|
  {
    if Is(s, Cur(s, c), Running) then EnvRun(s, c, Cur(s, c).slot) else SchedYield(s, c)
  }

  function Trap(s: Sys, c: nat, why: Cause): (t: Sys)
    requires Shape(s) && c < |s.cpus| && Cur(s, c).At?
    ensures Shape(t) && |t.cpus| == |s.cpus|
  {
    if Is(s, Cur(s, c), Dying) then ReapCurrent(s, c) else
    match Dispatch(s, c, why)
    case Left(t) => t
    case Returned(t, _) => Resume(t, c)
  }

  // ---- Events ----------------------------------------------------------------------------

  // Begin: a CPU enters the scheduler for the first time. Wake: a timer interrupt on a halted
  // CPU. Finish: env_run writes env_cpunum after it released the lock.
  datatype Event = Begin(c: nat) | Wake(c: nat) | Finish(c: nat) | Enter(c: nat, why: Cause)

  predicate LockFree(s: Sys) { forall c :: 0 <= c < |s.cpus| ==> s.cpus[c].mode != Monitor }

  predicate Enabled(s: Sys, ev: Event) {
    && LockFree(s)
    && ev.c < |s.cpus|
    && s.cpus[ev.c].mode ==
         match ev { case Begin(_) => Boot case Wake(_) => Halted case Finish(_) => Tail case Enter(_, _) => User }
    && (ev.Finish? || ev.Enter? ==> s.cpus[ev.c].cur.At?)
  }

  function Step(s: Sys, ev: Event): (t: Sys)
    requires Shape(s) && Enabled(s, ev)
    ensures Shape(t) && |t.cpus| == |s.cpus|
  {
    match ev
    case Begin(c) => SchedYield(s, c)
    case Wake(c) => SchedYield(UpdatePriority(s, c), c)
    case Finish(c) =>
      var e := Cur(s, c).slot;
      SetCpu(s.(envs := s.envs[e := s.envs[e].(cpunum := c)]), c, Cpu(At(e), User))
    case Enter(c, why) => Trap(s, c, why)
  }

  // ---- Boot ------------------------------------------------------------------------------

  // env_init; every other field of a fresh environment is zero.
  function EnvInit(cpus: nat): (s: Sys)
    ensures Shape(s)
  {
    Sys(seq(NENV, _ => Env(0, 0, Free, 0, 0, 0, false)), seq(cpus, _ => Cpu(Null, Boot)), 0,
        seq(NENV, i => i), seq(NENV, _ => 0))
  }
}
