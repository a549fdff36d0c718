/** Whole runs of the scheduler: safety on any number of CPUs, stale ids, boosting and starvation. */
module SchedRuns {
  import opened EnvIds
  import opened Sched
  import opened SchedInv

  // ---- Boot ------------------------------------------------------------------------------

  // env_init followed by env_create for the first environments, before any CPU schedules.
  function Booted(cpus: nat, created: nat): (s: Sys)
    ensures Shape(s)
  {
    if created == 0 then EnvInit(cpus) else EnvCreate(Booted(cpus, created - 1), true).0
  }

  // The environments created so far are the first slots, runnable with the best priority; no CPU
  // has one yet.
  predicate BootState(s: Sys, cpus: nat, created: nat) {
    && Table(s) && created <= NENV
    && |s.cpus| == cpus && (forall c :: 0 <= c < cpus ==> s.cpus[c] == Cpu(Null, Boot))
    && |s.free| == NENV - created && (forall i :: 0 <= i < |s.free| ==> s.free[i] == created + i)
    && (forall e :: 0 <= e < created ==> s.envs[e].status == Runnable && s.envs[e].priority == 1)
  }

  lemma CreateBoots(s: Sys, cpus: nat, created: nat)
    requires BootState(s, cpus, created) && created < NENV
    ensures EnvCreate(s, true).1 == 0 && BootState(EnvCreate(s, true).0, cpus, created + 1)
  {
    EnvAllocTable(s, 0, true);
    var (t, err, e) := EnvAlloc(s, 0, true);
    var u := SetPriority(t, e, 1);
    ExoforkPriorities(s, u, e);
    assert u.free == s.free[1..];
    assert FreeList(u) by { assert u.free == t.free; }
  }

  lemma BootOwn(s: Sys, cpus: nat, created: nat)
    requires BootState(s, cpus, created)
    ensures Inv(s) && LockFree(s)
  {
    forall e | 0 <= e < NENV
      ensures !Held(s.envs[e])
    {
      if e >= created {
        assert s.free[e - created] in s.free;
      }
    }
  }

  lemma InitBoots(cpus: nat)
    ensures BootState(EnvInit(cpus), cpus, 0)
  {
    var s := EnvInit(cpus);
    forall e | 0 <= e < NENV
      ensures e in s.free
    {
      assert s.free[e] == e;
    }
  }

  lemma {:induction false} BootedInv(cpus: nat, created: nat)
    requires created <= NENV
    ensures BootState(Booted(cpus, created), cpus, created) && Inv(Booted(cpus, created))
  {
    hide BootState, Inv;
    if created == 0 {
      InitBoots(cpus);
    } else {
      BootedInv(cpus, created - 1);
      CreateBoots(Booted(cpus, created - 1), cpus, created - 1);
    }
    BootOwn(Booted(cpus, created), cpus, created);
  }

  // ---- Runs ------------------------------------------------------------------------------

  // Every event of the sequence can happen and names no environment it must not touch.
  predicate Possible(s: Sys, evs: seq<Event>)
    requires Shape(s)
    decreases |evs|
  {
    evs == [] || (Enabled(s, evs[0]) && Safe(s, evs[0]) && Possible(Step(s, evs[0]), evs[1..]))
  }

  function Run(s: Sys, evs: seq<Event>): (t: Sys)
    requires Shape(s) && Possible(s, evs)
    ensures Shape(t) && |t.cpus| == |s.cpus|
    decreases |evs|
  {
    if evs == [] then s else Run(Step(s, evs[0]), evs[1..])
  }

  // An environment is RUNNING or DYING exactly when it is current on a CPU, that CPU is the only
  // one, and a CPU in user mode has a current environment, as trap() asserts.
  predicate OneCpuEach(s: Sys)
    requires Shape(s)
  {
    && (forall e :: 0 <= e < NENV ==> (Held(s.envs[e]) <==> Owned(s, e)))
    && (forall c, d :: 0 <= c < d < |s.cpus| && Cur(s, c).At? ==> Cur(s, c) != Cur(s, d))
    && (forall c :: 0 <= c < |s.cpus| && s.cpus[c].mode == User ==> Cur(s, c).At?)
  }

  lemma OwnIsOneCpuEach(s: Sys)
    requires Shape(s) && Own(s)
    ensures OneCpuEach(s)
  {
    forall e | 0 <= e < NENV && Owned(s, e)
      ensures Held(s.envs[e])
    {
      var d :| 0 <= d < |s.cpus| && s.cpus[d].cur == At(e);
      assert Settled(s, d);
    }
    forall c | 0 <= c < |s.cpus| && s.cpus[c].mode == User
      ensures Cur(s, c).At?
    {
      assert Settled(s, c);
    }
  }

  // In every run on any number of CPUs, whenever the lock is free.
  lemma {:induction false} RunKeeps(s: Sys, evs: seq<Event>)
    requires Inv(s) && Possible(s, evs)
    ensures Inv(Run(s, evs))
    ensures LockFree(Run(s, evs)) ==> OneCpuEach(Run(s, evs))
    decreases |evs|
  {
    hide Ids, FreeList, Priorities, Own, OneCpuEach, LockFree, Safe;
    if evs == [] {
      if LockFree(s) {
        OwnIsOneCpuEach(s);
      }
    } else {
      StepKeeps(s, evs[0]);
      RunKeeps(Step(s, evs[0]), evs[1..]);
    }
  }

  lemma FromBoot(cpus: nat, created: nat, evs: seq<Event>)
    requires created <= NENV && Possible(Booted(cpus, created), evs)
    ensures Inv(Run(Booted(cpus, created), evs))
    ensures forall e :: 0 <= e < NENV ==> InRange(Run(Booted(cpus, created), evs).envs[e])
  {
    BootedInv(cpus, created);
    RunKeeps(Booted(cpus, created), evs);
  }

  // ---- Stale ids -------------------------------------------------------------------------

  lemma YieldGens(s: Sys, c: nat)
    requires Shape(s) && c < |s.cpus|
    ensures SchedYield(s, c).gens == s.gens
  {
  }

  lemma ReapGens(s: Sys, c: nat)
    requires Shape(s) && c < |s.cpus| && Cur(s, c).At?
    ensures ReapCurrent(s, c).gens == s.gens
  {
    hide SchedYield;
    YieldGens(SetCpu(EnvFree(s, Cur(s, c).slot), c, s.cpus[c].(cur := Null)), c);
  }

  lemma DispatchGens(s: Sys, c: nat, why: Cause, e: nat)
    requires Shape(s) && c < |s.cpus| && Cur(s, c).At? && e < NENV
    ensures s.gens[e] <= Dispatch(s, c, why).s.gens[e]
  {
    hide SchedYield, ReapCurrent;
    ReapGens(s, c);
    match why
    case Timer => YieldGens(UpdatePriority(s, c), c);
    case Yield => YieldGens(s, c);
    case Recv(_) => YieldGens(SetStatus(SetRecving(s, Cur(s, c).slot, true), Cur(s, c).slot, NotRunnable), c);
    case _ =>
  }

  lemma StepGens(s: Sys, ev: Event, e: nat)
    requires Shape(s) && Enabled(s, ev) && e < NENV
    ensures s.gens[e] <= Step(s, ev).gens[e]
  {
    hide SchedYield, LockFree, Dispatch, ReapCurrent;
    var c := ev.c;
    match ev
    case Begin(_) => YieldGens(s, c);
    case Wake(_) => YieldGens(UpdatePriority(s, c), c);
    case Finish(_) =>
    case Enter(_, why) =>
      ReapGens(s, c);
      DispatchGens(s, c, why, e);
      YieldGens(Dispatch(s, c, why).s, c);
  }

  lemma {:induction false} RunGens(s: Sys, evs: seq<Event>, e: nat)
    requires Shape(s) && Possible(s, evs) && e < NENV
    ensures s.gens[e] <= Run(s, evs).gens[e]
    decreases |evs|
  {
    if evs != [] {
      StepGens(s, evs[0], e);
      RunGens(Step(s, evs[0]), evs[1..], e);
    }
  }

  // An id that named an environment names, as long as its slot has been reallocated fewer than
  // 524287 times since, either that same allocation or nothing.
  lemma StaleNeverResolves(s: Sys, evs: seq<Event>, c: nat, e: nat)
    requires Inv(s) && Possible(s, evs) && e < NENV && s.envs[e].status != Free
    requires var t := Run(s, evs);
      c < |t.cpus| && Cur(t, c).At? && t.envs[Cur(t, c).slot].status != Free && t.gens[e] < s.gens[e] + 524287
    ensures var t := Run(s, evs); var r := Envid2env(t, c, s.envs[e].id, false);
      (r == Null || r == At(e)) && (r == At(e) <==> t.gens[e] == s.gens[e] && t.envs[e].status != Free)
  {
    var t := Run(s, evs);
    RunKeeps(s, evs);
    RunGens(s, evs, e);
    IdNamesOne(e, s.gens[e], e, t.gens[e]);
    IdEncodesSlot(e, s.gens[e]);
  }

  // ---- Boosts and demotions --------------------------------------------------------------

  function Boosts(s: Sys, ticks: nat): (t: Sys)
    requires Shape(s)
    ensures Shape(t)
  {
    if ticks == 0 then s else BoostAll(Boosts(s, ticks - 1))
  }

  // The first boost comes with charged tick 1000, later ones 999 ticks apart.
  lemma {:induction false} BoostPeriod(s: Sys, ticks: nat)
    requires Shape(s) && s.boost == 0
    ensures Boosts(s, ticks).boost == if ticks < 1000 then ticks else 1 + (ticks - 1000) % 999
    ensures ticks > 0 && ticks >= 1000 && (ticks - 1000) % 999 == 0 ==>
      forall e :: 0 <= e < NENV ==> Boosts(s, ticks).envs[e].priority == 1
    ensures ticks > 0 && (ticks < 1000 || (ticks - 1000) % 999 != 0) ==>
      Boosts(s, ticks).envs == Boosts(s, ticks - 1).envs
  {
    if ticks > 0 {
      BoostPeriod(s, ticks - 1);
    }
  }

  function Charges(e: Env, ticks: nat): Env {
    if ticks == 0 then e else Charge(Charges(e, ticks - 1))
  }

  // Between boosts an environment loses one priority every three ticks of its own, down to 10.
  lemma {:induction false} Demotion(e: Env, ticks: nat)
    requires e.slices == 0 && 1 <= e.priority <= MAX_PRIORITY
    ensures var p := e.priority + ticks / 3;
      Charges(e, ticks) == e.(slices := ticks, priority := if p < MAX_PRIORITY then p else MAX_PRIORITY)
  {
    if ticks > 0 {
      Demotion(e, ticks - 1);
    }
  }

  // ---- Starvation on one CPU -------------------------------------------------------------

  function Distance(a: nat, e: nat): (d: nat)
    requires a < NENV && e < NENV
    ensures d < NENV && (a != e ==> d > 0)
  {
    (e - a) % NENV
  }

  predicate Waits(s: Sys, e: nat)
    requires Shape(s) && e < NENV
  {
    && |s.cpus| == 1 && LockFree(s) && (s.cpus[0].mode == User || s.cpus[0].mode == Tail)
    && s.envs[e].status == Runnable && Cur(s, 0).At? && Cur(s, 0) != At(e)
  }

  // With the best priority only a turn around the ring is left; otherwise first a boost.
  function Patience(s: Sys, e: nat): int
    requires Shape(s) && e < NENV && |s.cpus| == 1 && Cur(s, 0).At?
  {
    if s.envs[e].priority == 1 then Distance(Cur(s, 0).slot, e) - 1
    else (MAX_TIMESLICES_BOOST - s.boost) + NENV - 2
  }

  predicate IsTick(ev: Event) { ev.Enter? && ev.why.Timer? }

  // The running environment is destroyed, so the next scan starts at slot 0.
  predicate IsExit(s: Sys, ev: Event)
    requires Shape(s) && Enabled(s, ev)
  {
    && ev.Enter?
    && (|| Is(s, Cur(s, ev.c), Dying)
        || ev.why.Crash?
        || (ev.why.Kill? && Envid2env(s, ev.c, ev.why.id, true) == Cur(s, ev.c))
        || (ev.why.Upcall? && !ev.why.mapped && Envid2env(s, ev.c, ev.why.id, true) == Cur(s, ev.c)))
  }

  predicate Demotes(s: Sys, ev: Event, e: nat)
    requires Shape(s) && Enabled(s, ev)
  {
    ev.Enter? && ev.why.Red? && Envid2env(s, ev.c, ev.why.id, false) == At(e)
  }

  // Another scheduling decision that passes e over brings the scan closer to e.
  lemma YieldPatience(s: Sys, e: nat)
    requires Table(s) && |s.cpus| == 1 && KernelOwn(s, 0) && e < NENV
    requires s.envs[e].status == Runnable && SchedYield(s, 0).envs[e].status == Runnable
    requires Cur(s, 0) != At(e)
    ensures var t := SchedYield(s, 0);
      && t.cpus[0].mode == Tail && Cur(t, 0).At? && Cur(t, 0) != At(e)
      && t.boost == s.boost && t.envs[e].priority == s.envs[e].priority
      && (t.envs[e].priority == 1 ==> Distance(Cur(t, 0).slot, e) <= Offset(Start(s, 0), e))
  {
    var w := ChooseBest(s, 0);
    var start := Start(s, 0);
    assert Choose(s, 0) == At(Ring(start, w));
    assert Ring(start, w) != e;
    if s.envs[e].priority == 1 {
      BestBefore(s.envs, start, w, e);
      RingDistance(start, w, Offset(start, e));
    }
  }

  lemma BestBefore(envs: seq<Env>, start: nat, w: nat, e: nat)
    requires |envs| == NENV && Best(envs, start, w) && e < NENV && Ring(start, w) != e
    requires envs[e].status == Runnable && envs[e].priority == 1 && InRange(envs[Ring(start, w)])
    ensures w < Offset(start, e)
  {
    var o := Offset(start, e);
    assert Ring(start, o) == e;
  }

  lemma RingDistance(start: nat, w: nat, o: nat)
    requires w < o < NENV
    ensures Distance(Ring(start, w), Ring(start, o)) == o - w
  {
  }

  lemma NextTurn(s: Sys, e: nat)
    requires Table(s) && |s.cpus| == 1 && Cur(s, 0).At? && s.envs[Cur(s, 0).slot].status != Free
    requires e < NENV && Cur(s, 0) != At(e)
    ensures Offset(Start(s, 0), e) == Distance(Cur(s, 0).slot, e) - 1
  {
    CurResolves(s, 0);
  }

  // A call that comes back, then the end of trap().
  lemma ResumePatience(s: Sys, e: nat)
    requires Table(s) && |s.cpus| == 1 && KernelOwn(s, 0) && e < NENV && Cur(s, 0).At?
    requires s.envs[e].status == Runnable && Resume(s, 0).envs[e].status == Runnable && Cur(s, 0) != At(e)
    ensures Waits(Resume(s, 0), e) && Patience(Resume(s, 0), e) <= Patience(s, e)
  {
    if !Is(s, Cur(s, 0), Running) {
      YieldPatience(s, e);
      NextTurn(s, e);
    }
  }

  lemma TickPatience(s: Sys, e: nat)
    requires Table(s) && |s.cpus| == 1 && KernelOwn(s, 0) && e < NENV && Cur(s, 0).At? && Cur(s, 0) != At(e)
    requires var u := UpdatePriority(s, 0);
      u.envs[e].status == Runnable && SchedYield(u, 0).envs[e].status == Runnable
    ensures var t := SchedYield(UpdatePriority(s, 0), 0);
      Waits(t, e) && Patience(t, e) + 1 <= Patience(s, e)
  {
    hide Ids, FreeList, Owners, Distinct, Priorities, SchedYield, Start, Distance, Offset;
    var u := UpdatePriority(s, 0);
    UpdatePriorityTable(s, 0);
    SameOwn(s, u, 0);
    YieldPatience(u, e);
    NextTurn(u, e);
    TickCounts(s);
  }

  // A charged tick brings the next boost closer, or is one.
  lemma TickCounts(s: Sys)
    requires Table(s) && |s.cpus| == 1 && Cur(s, 0).At?
    ensures var u := UpdatePriority(s, 0);
      && Cur(u, 0) == Cur(s, 0) && 0 <= s.boost < MAX_TIMESLICES_BOOST
      && (u.boost == s.boost + 1 || forall k :: 0 <= k < NENV ==> u.envs[k].priority == 1)
      && (forall k :: 0 <= k < NENV && Cur(s, 0) != At(k) && u.envs[k].priority != 1 ==> u.envs[k].priority == s.envs[k].priority)
      && (forall k :: 0 <= k < NENV && Cur(s, 0) != At(k) && s.envs[k].priority == 1 ==> u.envs[k].priority == 1)
  {
  }

  lemma ReapPatience(s: Sys, e: nat)
    requires Table(s) && |s.cpus| == 1 && KernelOwn(s, 0) && e < NENV && Cur(s, 0).At? && Cur(s, 0) != At(e)
    requires s.envs[e].status == Runnable && ReapCurrent(s, 0).envs[e].status == Runnable
    ensures var t := ReapCurrent(s, 0); Waits(t, e) && Patience(t, e) <= Patience(s, e) + NENV - 2
  {
    var f := EnvFree(s, Cur(s, 0).slot);
    EnvFreeTable(s, Cur(s, 0).slot);
    var u := SetCpu(f, 0, s.cpus[0].(cur := Null));
    assert KernelOwn(u, 0) by {
      forall k | 0 <= k < NENV
        ensures !Held(u.envs[k])
      {
        if Held(s.envs[k]) {
          assert Owned(s, k);
        }
      }
    }
    YieldPatience(u, e);
  }

  lemma RecvPatience(s: Sys, e: nat)
    requires Table(s) && |s.cpus| == 1 && KernelOwn(s, 0) && e < NENV && Is(s, Cur(s, 0), Running) && Cur(s, 0) != At(e)
    requires s.envs[e].status == Runnable && IpcRecv(s, 0, true).s.envs[e].status == Runnable
    ensures var t := IpcRecv(s, 0, true).s; Waits(t, e) && Patience(t, e) <= Patience(s, e)
  {
    var k := Cur(s, 0).slot;
    RecvingKeeps(s, 0, k, true);
    var u := SetRecving(s, k, true);
    SetStatusTable(u, k, NotRunnable);
    StatusOwn(u, SetStatus(u, k, NotRunnable), 0, k);
    YieldPatience(SetStatus(u, k, NotRunnable), e);
    NextTurn(SetStatus(u, k, NotRunnable), e);
  }

  // A call that comes back leaves the CPU, the boost counter and the priority of e alone, but for
  // sys_inc_priority, which may raise it.
  lemma CallPriority(s: Sys, why: Cause, e: nat)
    requires Shape(s) && |s.cpus| == 1 && e < NENV && Cur(s, 0).At? && !why.Fork?
    requires Dispatch(s, 0, why).Returned? && !(why.Red? && Envid2env(s, 0, why.id, false) == At(e))
    ensures var t := Dispatch(s, 0, why).s;
      && t.cpus == s.cpus && t.boost == s.boost
      && (t.envs[e].priority == s.envs[e].priority || (s.envs[e].priority != 1 && t.envs[e].priority == s.envs[e].priority - 1))
  {
    hide SchedYield, ReapCurrent;
  }

  lemma ReturnPatience(s: Sys, c: nat, why: Cause, e: nat)
    requires Table(s) && |s.cpus| == 1 && c == 0 && KernelOwn(s, 0) && e < NENV && Is(s, Cur(s, 0), Running)
    requires Dispatch(s, 0, why).Returned? && s.envs[e].status == Runnable
    requires !(why.Red? && Envid2env(s, 0, why.id, false) == At(e))
    ensures var t := Dispatch(s, 0, why).s;
      Cur(t, 0) == Cur(s, 0) && (t.envs[e].status == Runnable ==> Patience(t, e) <= Patience(s, e))
  {
    LivePriority(s, e);
    if why.Fork? {
      hide Exofork, Ids, Priorities, KernelOwn;
      ExoforkTable(s, 0, why.memory);
      BoostSame(s, why.memory);
    } else {
      CallPriority(s, why, e);
    }
    hide Dispatch, Ids, FreeList, KernelOwn, Envid2env;
  }

  lemma BoostSame(s: Sys, memory: bool)
    requires Shape(s) && |s.cpus| > 0 && Cur(s, 0).At?
    ensures Exofork(s, 0, memory).s.boost == s.boost
  {
  }

  // What trap() comes down to.
  lemma TrapIs(s: Sys, why: Cause)
    requires Shape(s) && |s.cpus| == 1 && Enabled(s, Enter(0, why))
    ensures var t := Trap(s, 0, why);
      if IsExit(s, Enter(0, why)) then t == ReapCurrent(s, 0)
      else if why.Timer? then t == SchedYield(UpdatePriority(s, 0), 0)
      else if why.Yield? then t == SchedYield(s, 0)
      else if why.Recv? && why.valid then t == IpcRecv(s, 0, true).s
      else Dispatch(s, 0, why).Returned? && t == Resume(Dispatch(s, 0, why).s, 0)
    ensures !IsExit(s, Enter(0, why)) ==> !Is(s, Cur(s, 0), Dying)
  {
    hide SchedYield, UpdatePriority, Resume, ReapCurrent;
  }

  // What is ready after the end of trap() was ready before it.
  lemma ResumeReady(s: Sys, why: Cause, e: nat)
    requires Table(s) && |s.cpus| == 1 && Is(s, Cur(s, 0), Running) && e < NENV && Cur(s, 0) != At(e)
    requires Dispatch(s, 0, why).Returned? && s.envs[e].status == Runnable
    requires Resume(Dispatch(s, 0, why).s, 0).envs[e].status == Runnable
    ensures Dispatch(s, 0, why).s.envs[e].status == Runnable
  {
    hide SchedYield, Ids, Priorities;
    var x := Dispatch(s, 0, why);
    if why.Fork? {
      assert s.free != [] ==> s.free[0] in s.free;
    }
  }

  lemma EnterPatience(s: Sys, why: Cause, e: nat)
    requires Table(s) && e < NENV && Waits(s, e) && KernelOwn(s, 0) && s.cpus[0].mode == User
    requires Held(s.envs[Cur(s, 0).slot]) && Enabled(s, Enter(0, why)) && Safe(s, Enter(0, why))
    requires !Demotes(s, Enter(0, why), e) && Trap(s, 0, why).envs[e].status == Runnable
    ensures var t := Trap(s, 0, why);
      && Waits(t, e)
      && Patience(t, e) + (if why.Timer? then 1 else 0) <=
         Patience(s, e) + (if IsExit(s, Enter(0, why)) then NENV - 1 else 0)
  {
    hide Ids, FreeList, Priorities, Owners, Distinct, SchedYield, Trap, Dispatch, ReapCurrent, IpcRecv, Resume, IsExit;
    TrapIs(s, why);
    if IsExit(s, Enter(0, why)) {
      ReapPatience(s, e);
    } else if why.Timer? {
      TickPatience(s, e);
    } else if why.Yield? {
      YieldPatience(s, e);
      NextTurn(s, e);
    } else if why.Recv? && why.valid {
      RecvPatience(s, e);
    } else {
      DispatchKeeps(s, 0, why);
      ReturnPatience(s, 0, why, e);
      ResumeReady(s, why, e);
      ResumePatience(Dispatch(s, 0, why).s, e);
    }
  }

  lemma StepPatience(s: Sys, ev: Event, e: nat)
    requires Inv(s) && e < NENV && Waits(s, e) && Enabled(s, ev) && Safe(s, ev) && !Demotes(s, ev, e)
    requires Step(s, ev).envs[e].status == Runnable
    ensures var t := Step(s, ev);
      && Waits(t, e)
      && Patience(t, e) + (if IsTick(ev) then 1 else 0) <= Patience(s, e) + (if IsExit(s, ev) then NENV - 1 else 0)
  {
    assert Settled(s, 0);
    if ev.Enter? {
      OwnKernel(s, 0);
      hide Table, KernelOwn, Waits, Patience, SafeCall;
      EnterPatience(s, ev.why, e);
    }
  }

  // The events of a run during which e stays RUNNABLE and nobody lowers its priority.
  predicate Passed(s: Sys, evs: seq<Event>, e: nat)
    requires Shape(s) && e < NENV
    decreases |evs|
  {
    evs == [] ||
    (Enabled(s, evs[0]) && Safe(s, evs[0]) && !Demotes(s, evs[0], e)
     && Step(s, evs[0]).envs[e].status == Runnable && Passed(Step(s, evs[0]), evs[1..], e))
  }

  function Ticks(evs: seq<Event>): nat {
    if evs == [] then 0 else (if IsTick(evs[0]) then 1 else 0) + Ticks(evs[1..])
  }

  function Exits(s: Sys, evs: seq<Event>, e: nat): nat
    requires Shape(s) && e < NENV && Passed(s, evs, e)
    decreases |evs|
  {
    if evs == [] then 0 else (if IsExit(s, evs[0]) then 1 else 0) + Exits(Step(s, evs[0]), evs[1..], e)
  }

  lemma {:induction false} RunPatience(s: Sys, evs: seq<Event>, e: nat)
    requires Inv(s) && e < NENV && Waits(s, e) && Passed(s, evs, e)
    ensures Ticks(evs) <= Patience(s, e) + (NENV - 1) * Exits(s, evs, e)
    decreases |evs|
  {
    if evs == [] {
    } else {
      StepKeeps(s, evs[0]);
      StepPatience(s, evs[0], e);
      var t := Step(s, evs[0]);
      hide Inv, Waits, Patience, Safe, Demotes, IsExit, IsTick;
      RunPatience(t, evs[1..], e);
    }
  }

  // One CPU: an environment that is ready to run and whose priority nobody lowers is passed over
  // for fewer than 1000 + (x + 1) * 1024 timer ticks, where x counts the environments that end
  // meanwhile.
  lemma NoStarvation(s: Sys, evs: seq<Event>, e: nat)
    requires Inv(s) && e < NENV && Waits(s, e) && Passed(s, evs, e)
    ensures Ticks(evs) < MAX_TIMESLICES_BOOST + (Exits(s, evs, e) + 1) * NENV
  {
    RunPatience(s, evs, e);
  }
}
