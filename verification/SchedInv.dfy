/**
 * What every event keeps: the environment table and its free list, priorities in 1..10, and, when
 * the kernel lock is free, one CPU per running environment.
 */
module SchedInv {
  import opened EnvIds
  import opened Sched

  // ---- The environment table -------------------------------------------------------------

  predicate Ids(s: Sys)
    requires Shape(s)
  {
    && (forall e :: 0 <= e < NENV ==> s.envs[e].id == IdAt(e, s.gens[e]))
    && (forall e :: 0 <= e < NENV && s.envs[e].status != Free ==> s.gens[e] > 0)
  }

  predicate FreeList(s: Sys)
    requires Shape(s)
  {
    && (forall e :: 0 <= e < NENV ==> (e in s.free <==> s.envs[e].status == Free))
    && (forall i, j :: 0 <= i < j < |s.free| ==> s.free[i] != s.free[j])
  }

  predicate InRange(e: Env) { e.status != Free ==> 1 <= e.priority <= MAX_PRIORITY }

  predicate Priorities(s: Sys)
    requires Shape(s)
  {
    && (forall e :: 0 <= e < NENV ==> InRange(s.envs[e]))
    && 0 <= s.boost < MAX_TIMESLICES_BOOST
  }

  predicate Table(s: Sys) { Shape(s) && Ids(s) && FreeList(s) && Priorities(s) }

  // ---- Who runs where --------------------------------------------------------------------

  predicate Held(e: Env) { e.status == Running || e.status == Dying }

  predicate Owned(s: Sys, e: nat) { exists d :: 0 <= d < |s.cpus| && s.cpus[d].cur == At(e) }

  predicate Owners(s: Sys)
    requires Shape(s)
  {
    forall e :: 0 <= e < NENV && Held(s.envs[e]) ==> Owned(s, e)
  }

  predicate Distinct(s: Sys) {
    forall c, d :: 0 <= c < d < |s.cpus| && s.cpus[c].cur.At? ==> s.cpus[c].cur != s.cpus[d].cur
  }

  // CPU d as other CPUs may find it.
  predicate Settled(s: Sys, d: nat)
    requires Shape(s) && d < |s.cpus|
  {
    match s.cpus[d].mode
    case Boot => s.cpus[d].cur == Null
    case Halted => s.cpus[d].cur == Null
    case Tail => s.cpus[d].cur.At? && Held(s.envs[s.cpus[d].cur.slot])
    case User => s.cpus[d].cur.At? && Held(s.envs[s.cpus[d].cur.slot]) && s.envs[s.cpus[d].cur.slot].cpunum == d
    case Monitor => false
  }

  // While the lock is free: a RUNNING or DYING environment is current on exactly one CPU, and
  // whatever is current on a CPU is RUNNING or DYING.
  predicate Own(s: Sys)
    requires Shape(s)
  {
    Owners(s) && Distinct(s) && forall d :: 0 <= d < |s.cpus| ==> Settled(s, d)
  }

  // While CPU c holds the lock.
  predicate KernelOwn(s: Sys, c: nat)
    requires Shape(s) && c < |s.cpus|
  {
    && Owners(s) && Distinct(s)
    && (forall d :: 0 <= d < |s.cpus| && d != c ==> Settled(s, d))
    && (Cur(s, c).At? ==> s.envs[Cur(s, c).slot].status != Free && s.envs[Cur(s, c).slot].cpunum == c)
  }

  predicate Inv(s: Sys) { Table(s) && (LockFree(s) ==> Own(s)) }

  lemma OwnKernel(s: Sys, c: nat)
    requires Shape(s) && Own(s) && c < |s.cpus| && s.cpus[c].mode != Tail
    ensures KernelOwn(s, c)
  {
    assert Settled(s, c);
  }

  // ---- The table through each operation --------------------------------------------------

  lemma SetStatusTable(s: Sys, e: nat, st: Status)
    requires Table(s) && e < NENV && s.envs[e].status != Free && st != Free
    ensures Table(SetStatus(s, e, st))
  {
  }

  lemma CpuTable(s: Sys, c: nat, cpu: Cpu)
    requires Table(s) && c < |s.cpus| && (cpu.cur.At? ==> cpu.cur.slot < NENV)
    ensures Table(SetCpu(s, c, cpu))
  {
  }

  lemma SetPriorityTable(s: Sys, e: nat, p: int)
    requires Table(s) && e < NENV && 1 <= p <= MAX_PRIORITY
    ensures Table(SetPriority(s, e, p))
  {
  }

  lemma UpdatePriorityTable(s: Sys, c: nat)
    requires Table(s) && c < |s.cpus| && (Cur(s, c).At? ==> s.envs[Cur(s, c).slot].status != Free)
    ensures Table(UpdatePriority(s, c))
  {
    if Cur(s, c).At? {
      var e := Cur(s, c).slot;
      var t := s.(envs := s.envs[e := Charge(s.envs[e])]);
      assert InRange(s.envs[e]);
      assert Table(t);
    }
  }

  lemma EnvRunTable(s: Sys, c: nat, e: nat)
    requires Table(s) && c < |s.cpus| && e < NENV && s.envs[e].status != Free
    ensures Table(EnvRun(s, c, e))
  {
    var cur := Cur(s, c);
    var s1 := if Is(s, cur, Running) then SetStatus(s, cur.slot, Runnable) else s;
    if Is(s, cur, Running) {
      SetStatusTable(s, cur.slot, Runnable);
    }
    CpuTable(s1, c, Cpu(At(e), Tail));
    SetStatusTable(SetCpu(s1, c, Cpu(At(e), Tail)), e, Running);
  }

  lemma EnvFreeTable(s: Sys, e: nat)
    requires Table(s) && e < NENV && s.envs[e].status != Free
    ensures Table(EnvFree(s, e))
  {
    var t := EnvFree(s, e);
    assert e !in s.free;
    forall k | 0 <= k < NENV
      ensures k in t.free <==> t.envs[k].status == Free
    {
    }
  }

  // env_alloc takes a free slot, gives it a positive id that encodes the slot and was never seen
  // in this slot's last 524287 allocations, and leaves every other environment as it was.
  lemma EnvAllocTable(s: Sys, parent: int, memory: bool)
    requires Table(s)
    ensures var (t, err, e) := EnvAlloc(s, parent, memory);
      && (err != 0 ==> t == s)
      && (err == 0 ==>
        && s.envs[e].status == Free && t.gens == s.gens[e := s.gens[e] + 1]
        && t.envs[e].id == IdAt(e, t.gens[e]) && 0 < t.envs[e].id && Envx(t.envs[e].id) == e
        && t.envs[e].status == Runnable && t.envs[e].parent == parent
        && Shape(t) && Ids(t) && FreeList(t) && t.boost == s.boost && t.cpus == s.cpus
        && (forall k :: 0 <= k < NENV && k != e ==> t.envs[k] == s.envs[k]))
  {
    var (t, err, e) := EnvAlloc(s, parent, memory);
    if err == 0 {
      IdEncodesSlot(e, s.gens[e] + 1);
      assert s.free[0] in s.free;
      assert forall k :: k in t.free <==> k in s.free && k != e;
    }
  }

  lemma EnvAllocFailsOnlyWhen(s: Sys, parent: int, memory: bool)
    requires Table(s)
    ensures EnvAlloc(s, parent, memory).1 == E_NO_FREE_ENV <==> forall e :: 0 <= e < NENV ==> s.envs[e].status != Free
    ensures EnvAlloc(s, parent, memory).1 == E_NO_MEM <==>
            !memory && exists e :: 0 <= e < NENV && s.envs[e].status == Free
  {
    if s.free != [] {
      assert s.free[0] in s.free;
    }
  }

  lemma CurResolves(s: Sys, c: nat)
    requires Table(s) && c < |s.cpus| && Cur(s, c).At? && s.envs[Cur(s, c).slot].status != Free
    ensures Start(s, c) == Cur(s, c).slot + 1
    ensures forall check :: Envid2env(s, c, s.envs[Cur(s, c).slot].id, check) == Cur(s, c)
  {
    var e := Cur(s, c).slot;
    IdEncodesSlot(e, s.gens[e]);
  }

  // Which environment an id names: the caller for 0, else the live one that has it, and with the
  // permission check only the caller or its child. No two live environments have the same id.
  lemma ResolveMeans(s: Sys, c: nat, id: int, check: bool, e: nat)
    requires Table(s) && c < |s.cpus| && Cur(s, c).At? && s.envs[Cur(s, c).slot].status != Free && e < NENV
    ensures Envid2env(s, c, id, check) == At(e) <==>
            || (id == 0 && Cur(s, c) == At(e))
            || (&& id != 0 && s.envs[e].status != Free && s.envs[e].id == id
                && (check ==> Cur(s, c) == At(e) || s.envs[e].parent == s.envs[Cur(s, c).slot].id))
  {
    if s.envs[e].status != Free {
      IdEncodesSlot(e, s.gens[e]);
    }
  }

  // sys_inc_priority raises exactly one environment by one, not above the best, and refuses the
  // caller and its children; sys_red_priority lowers exactly one by one, not below the worst.
  lemma PriorityCallsMean(s: Sys, c: nat, id: int, e: nat)
    requires Table(s) && c < |s.cpus| && Cur(s, c).At? && s.envs[Cur(s, c).slot].status != Free && e < NENV
    requires Envid2env(s, c, id, false) == At(e)
    ensures var up, down := IncPriority(s, c, id), RedPriority(s, c, id);
      && (up.r == 0 <==> Cur(s, c) != At(e) && s.envs[e].parent != s.envs[Cur(s, c).slot].id)
      && (up.r != 0 ==> up.r == E_UNSPECIFIED && up.s == s) && down.r == 0
      && (up.r == 0 ==> up.s.envs[e].priority == (if s.envs[e].priority > 1 then s.envs[e].priority - 1 else 1))
      && down.s.envs[e].priority == (if s.envs[e].priority < 10 then s.envs[e].priority + 1 else 10)
      && (forall k :: 0 <= k < NENV && k != e ==> up.s.envs[k] == s.envs[k] && down.s.envs[k] == s.envs[k])
  {
    ResolveMeans(s, c, id, false, e);
    assert InRange(s.envs[e]);
  }

  // ---- The scan --------------------------------------------------------------------------

  // Step o is the first of the first n steps around the ring from start whose environment is
  // runnable and has a priority no runnable one among them beats.
  predicate BestOf(envs: seq<Env>, start: nat, n: nat, o: nat)
    requires |envs| == NENV
  {
    && o < n <= NENV
    && envs[Ring(start, o)].status == Runnable
    && (forall i :: 0 <= i < n && envs[Ring(start, i)].status == Runnable ==>
          envs[Ring(start, o)].priority <= envs[Ring(start, i)].priority)
    && (forall i :: 0 <= i < o && envs[Ring(start, i)].status == Runnable ==>
          envs[Ring(start, o)].priority < envs[Ring(start, i)].priority)
  }

  // What sched_pr looks for.
  predicate Best(envs: seq<Env>, start: nat, o: nat)
    requires |envs| == NENV
  {
    BestOf(envs, start, NENV, o)
  }

  predicate NoneOf(envs: seq<Env>, start: nat, n: nat)
    requires |envs| == NENV
  {
    forall i :: 0 <= i < n && i < NENV ==> envs[Ring(start, i)].status != Runnable
  }

  lemma {:induction false} ScanFinds(envs: seq<Env>, start: nat, i: nat, o: nat) returns (w: nat)
    requires |envs| == NENV && i <= NENV && BestOf(envs, start, i, o)
    requires envs[Ring(start, o)].priority > 1
    requires forall k :: 0 <= k < NENV ==> InRange(envs[k])
    ensures Best(envs, start, w)
    ensures Scan(envs, start, i, At(Ring(start, o)), envs[Ring(start, o)].priority) == At(Ring(start, w))
    decreases NENV - i
  {
    if i == NENV {
      w := o;
    } else {
      var k := Ring(start, i);
      assert InRange(envs[k]);
      if envs[k].status == Runnable && envs[k].priority < envs[Ring(start, o)].priority {
        if envs[k].priority == 1 {
          w := i;
          assert forall j :: 0 <= j < NENV ==> InRange(envs[Ring(start, j)]);
        } else {
          assert BestOf(envs, start, i + 1, i);
          w := ScanFinds(envs, start, i + 1, i);
        }
      } else {
        w := ScanFinds(envs, start, i + 1, o);
      }
    }
  }

  // With nothing found yet the scan still ends at the best one, or there is no runnable one.
  lemma {:induction false} ScanFrom(envs: seq<Env>, start: nat, i: nat) returns (w: nat)
    requires |envs| == NENV && i <= NENV && NoneOf(envs, start, i)
    requires forall k :: 0 <= k < NENV ==> InRange(envs[k])
    ensures Scan(envs, start, i, Null, MAX_PRIORITY + 1) == Null ==> NoneOf(envs, start, NENV)
    ensures Scan(envs, start, i, Null, MAX_PRIORITY + 1) != Null ==>
      Best(envs, start, w) && Scan(envs, start, i, Null, MAX_PRIORITY + 1) == At(Ring(start, w))
    decreases NENV - i
  {
    w := 0;
    if i < NENV {
      var k := Ring(start, i);
      assert InRange(envs[k]);
      if envs[k].status != Runnable {
        w := ScanFrom(envs, start, i + 1);
      } else if envs[k].priority == 1 {
        w := i;
        assert forall j :: 0 <= j < NENV ==> InRange(envs[Ring(start, j)]);
      } else {
        assert BestOf(envs, start, i + 1, i);
        w := ScanFinds(envs, start, i + 1, i);
      }
    }
  }

  function Offset(start: nat, e: nat): (o: nat)
    requires e < NENV
    ensures o < NENV && Ring(start, o) == e
  {
    (e - start) % NENV
  }

  lemma NoneRunnable(envs: seq<Env>, start: nat)
    requires |envs| == NENV && NoneOf(envs, start, NENV)
    ensures forall e :: 0 <= e < NENV ==> envs[e].status != Runnable
  {
    forall e | 0 <= e < NENV
      ensures envs[e].status != Runnable
    {
      var o := Offset(start, e);
      assert Ring(start, o) == e;
    }
  }

  // sched_pr, on every reachable table: the best runnable environment in circular order; the
  // environment it leaves, when it can still run, only if nothing else can; nothing otherwise.
  lemma ChooseBest(s: Sys, c: nat) returns (w: nat)
    requires Table(s) && c < |s.cpus| && KernelOwn(s, c)
    ensures var r := Choose(s, c); var none := forall e :: 0 <= e < NENV ==> s.envs[e].status != Runnable;
      && (!none ==> Best(s.envs, Start(s, c), w) && r == At(Ring(Start(s, c), w)))
      && (none && Is(s, Cur(s, c), Running) ==> r == Cur(s, c))
      && (none && !Is(s, Cur(s, c), Running) ==> r == Null)
  {
    w := ScanFrom(s.envs, Start(s, c), 0);
    if Scan(s.envs, Start(s, c), 0, Null, MAX_PRIORITY + 1) == Null {
      NoneRunnable(s.envs, Start(s, c));
    } else {
      assert s.envs[Ring(Start(s, c), w)].status == Runnable;
    }
  }

  // ---- Ownership through each operation --------------------------------------------------

  lemma EnvRunOwn(s: Sys, c: nat, e: nat)
    requires Shape(s) && c < |s.cpus| && KernelOwn(s, c) && e < NENV
    requires s.envs[e].status == Runnable || (s.envs[e].status == Running && Cur(s, c) == At(e))
    requires !Is(s, Cur(s, c), Dying)
    ensures Own(EnvRun(s, c, e)) && LockFree(EnvRun(s, c, e))
  {
    var t := EnvRun(s, c, e);
    forall d | 0 <= d < |t.cpus| && d != c
      ensures Settled(t, d) && t.cpus[d].cur != At(e)
    {
      assert Settled(s, d);
    }
    forall k | 0 <= k < NENV && Held(t.envs[k])
      ensures Owned(t, k)
    {
      if k == e {
        assert t.cpus[c].cur == At(e);
      } else {
        assert Owned(s, k);
        var d :| 0 <= d < |s.cpus| && s.cpus[d].cur == At(k);
        assert t.cpus[d].cur == At(k);
      }
    }
    assert Settled(t, c);
  }

  lemma HaltOwn(s: Sys, c: nat)
    requires Shape(s) && c < |s.cpus| && KernelOwn(s, c)
    requires Cur(s, c).At? ==> !Held(s.envs[Cur(s, c).slot])
    ensures LockFree(SchedHalt(s, c)) ==> Own(SchedHalt(s, c))
  {
    var t := SchedHalt(s, c);
    if t.cpus[c].mode != Monitor {
      forall d | 0 <= d < |t.cpus| && d != c
        ensures Settled(t, d)
      {
        assert Settled(s, d);
      }
      forall k | 0 <= k < NENV && Held(t.envs[k])
        ensures Owned(t, k)
      {
        assert Owned(s, k);
        var d :| 0 <= d < |s.cpus| && s.cpus[d].cur == At(k);
        assert t.cpus[d].cur == At(k);
      }
    }
  }

  lemma YieldOwn(s: Sys, c: nat)
    requires Table(s) && c < |s.cpus| && KernelOwn(s, c) && !Is(s, Cur(s, c), Dying)
    ensures Table(SchedYield(s, c))
    ensures LockFree(SchedYield(s, c)) ==> Own(SchedYield(s, c))
  {
    var w := ChooseBest(s, c);
    match Choose(s, c)
    case At(e) =>
      EnvRunTable(s, c, e);
      EnvRunOwn(s, c, e);
    case Null =>
      HaltOwn(s, c);
  }

  // Only statuses, cpunums and CPUs matter to ownership.
  lemma SameOwn(s: Sys, t: Sys, c: nat)
    requires Shape(s) && Shape(t) && c < |s.cpus| && KernelOwn(s, c) && t.cpus == s.cpus
    requires forall e :: 0 <= e < NENV ==> t.envs[e].status == s.envs[e].status && t.envs[e].cpunum == s.envs[e].cpunum
    ensures KernelOwn(t, c)
  {
    forall d | 0 <= d < |t.cpus| && d != c
      ensures Settled(t, d)
    {
      assert Settled(s, d);
    }
    forall k | 0 <= k < NENV && Held(t.envs[k])
      ensures Owned(t, k)
    {
      assert Owned(s, k);
    }
  }

  // Changing the status of an environment that is the caller or held by no CPU.
  lemma StatusOwn(s: Sys, t: Sys, c: nat, e: nat)
    requires Shape(s) && Shape(t) && c < |s.cpus| && KernelOwn(s, c) && t.cpus == s.cpus && e < NENV
    requires forall k :: 0 <= k < NENV && k != e ==> t.envs[k] == s.envs[k]
    requires t.envs[e].cpunum == s.envs[e].cpunum
    requires if Cur(s, c) == At(e) then t.envs[e].status != Free else !Held(s.envs[e]) && !Held(t.envs[e])
    ensures KernelOwn(t, c)
  {
    forall d | 0 <= d < |t.cpus| && d != c
      ensures Settled(t, d)
    {
      assert Settled(s, d);
      assert t.cpus[d].cur.At? ==> t.cpus[d].cur != At(e);
    }
    forall k | 0 <= k < NENV && Held(t.envs[k])
      ensures Owned(t, k)
    {
      if k == e {
        assert t.cpus[c].cur == At(e);
      } else {
        assert Owned(s, k);
      }
    }
  }

  // A running environment of another CPU becomes DYING and stays where it is.
  lemma DyingOwn(s: Sys, c: nat, e: nat)
    requires Shape(s) && c < |s.cpus| && KernelOwn(s, c) && e < NENV
    requires s.envs[e].status == Running && Cur(s, c) != At(e)
    ensures KernelOwn(SetStatus(s, e, Dying), c)
  {
    var t := SetStatus(s, e, Dying);
    forall d | 0 <= d < |t.cpus| && d != c
      ensures Settled(t, d)
    {
      assert Settled(s, d);
    }
    forall k | 0 <= k < NENV && Held(t.envs[k])
      ensures Owned(t, k)
    {
      assert Owned(s, k);
    }
  }

  // Freeing the current environment leaves the CPU with none.
  lemma ReapedOwn(s: Sys, c: nat)
    requires Shape(s) && c < |s.cpus| && KernelOwn(s, c) && Cur(s, c).At?
    ensures KernelOwn(SetCpu(EnvFree(s, Cur(s, c).slot), c, s.cpus[c].(cur := Null)), c)
  {
    var e := Cur(s, c).slot;
    var u := SetCpu(EnvFree(s, e), c, s.cpus[c].(cur := Null));
    forall d | 0 <= d < |u.cpus| && d != c
      ensures Settled(u, d)
    {
      assert Settled(s, d);
      assert s.cpus[d].cur != At(e);
    }
    forall k | 0 <= k < NENV && Held(u.envs[k])
      ensures Owned(u, k)
    {
      assert Owned(s, k);
      var d :| 0 <= d < |s.cpus| && s.cpus[d].cur == At(k);
      assert u.cpus[d].cur == At(k);
    }
  }

  lemma ReapOwn(s: Sys, c: nat)
    requires Table(s) && c < |s.cpus| && KernelOwn(s, c) && Cur(s, c).At?
    ensures Table(ReapCurrent(s, c))
    ensures LockFree(ReapCurrent(s, c)) ==> Own(ReapCurrent(s, c))
  {
    var e := Cur(s, c).slot;
    var t := EnvFree(s, e);
    EnvFreeTable(s, e);
    CpuTable(t, c, s.cpus[c].(cur := Null));
    ReapedOwn(s, c);
    hide Own, Ids, FreeList, Priorities, Owners, Distinct, LockFree;
    YieldOwn(SetCpu(t, c, s.cpus[c].(cur := Null)), c);
  }

  lemma ResumeOwn(s: Sys, c: nat)
    requires Table(s) && c < |s.cpus| && KernelOwn(s, c) && !Is(s, Cur(s, c), Dying)
    ensures Table(Resume(s, c))
    ensures LockFree(Resume(s, c)) ==> Own(Resume(s, c))
  {
    if Is(s, Cur(s, c), Running) {
      EnvRunTable(s, c, Cur(s, c).slot);
      EnvRunOwn(s, c, Cur(s, c).slot);
    } else {
      YieldOwn(s, c);
    }
  }

  // ---- System calls ----------------------------------------------------------------------

  // A forked environment starts NOT_RUNNABLE with its parent's priority and no ticks of its own.
  lemma ExoforkTable(s: Sys, c: nat, memory: bool)
    requires Table(s) && c < |s.cpus| && KernelOwn(s, c) && Cur(s, c).At?
    ensures var x := Exofork(s, c, memory);
      && x.Returned? && Table(x.s) && KernelOwn(x.s, c) && x.s.cpus == s.cpus
      && (x.r < 0 ==> x.s == s)
      && (x.r >= 0 ==> var e := Envx(x.r);
            && s.envs[e].status == Free
            && x.s.envs[e] == Env(x.r, s.envs[Cur(s, c).slot].id, NotRunnable, s.envs[Cur(s, c).slot].priority, 0, s.envs[e].cpunum, false)
            && x.s.gens == s.gens[e := s.gens[e] + 1]
            && (forall k :: 0 <= k < NENV && k != e ==> x.s.envs[k] == s.envs[k]))
      && (x.r >= 0 || x.r == E_NO_FREE_ENV || x.r == E_NO_MEM)
  {
    var cur := Cur(s, c).slot;
    EnvAllocTable(s, s.envs[cur].id, memory);
    var (t, err, e) := EnvAlloc(s, s.envs[cur].id, memory);
    if err == 0 {
      var u := SetStatus(t, e, NotRunnable);
      IdEncodesSlot(cur, s.gens[cur]);
      assert GetPriority(u, c, u.envs[e].parent) == s.envs[cur].priority;
      var x := Exofork(s, c, memory);
      assert InRange(s.envs[cur]);
      StatusOwn(s, x.s, c, e);
      ExoforkPriorities(s, x.s, e);
      assert FreeList(x.s);
    }
  }

  lemma ExoforkPriorities(s: Sys, t: Sys, e: nat)
    requires Shape(s) && Shape(t) && Priorities(s) && e < NENV && t.boost == s.boost && InRange(t.envs[e])
    requires forall k :: 0 <= k < NENV && k != e ==> t.envs[k] == s.envs[k]
    ensures Priorities(t)
  {
    forall k | 0 <= k < NENV
      ensures InRange(t.envs[k])
    {
      assert InRange(s.envs[k]);
    }
  }

  lemma PriorityCalls(s: Sys, c: nat, id: int)
    requires Table(s) && c < |s.cpus| && KernelOwn(s, c) && Cur(s, c).At?
    ensures Table(IncPriority(s, c, id).s) && KernelOwn(IncPriority(s, c, id).s, c)
    ensures Table(RedPriority(s, c, id).s) && KernelOwn(RedPriority(s, c, id).s, c)
  {
    hide Ids, FreeList, Priorities, Owners, Distinct;
    var r := Envid2env(s, c, id, false);
    if r.At? {
      LivePriority(s, r.slot);
      PriorityKeeps(s, c, r.slot, s.envs[r.slot].priority - 1);
      PriorityKeeps(s, c, r.slot, s.envs[r.slot].priority + 1);
    }
  }

  lemma LivePriority(s: Sys, e: nat)
    requires Table(s) && e < NENV && s.envs[e].status != Free
    ensures 1 <= s.envs[e].priority <= MAX_PRIORITY
  {
    assert InRange(s.envs[e]);
  }

  lemma PriorityKeeps(s: Sys, c: nat, e: nat, p: int)
    requires Table(s) && c < |s.cpus| && KernelOwn(s, c) && e < NENV
    ensures KernelOwn(SetPriority(s, e, p), c) && (1 <= p <= MAX_PRIORITY ==> Table(SetPriority(s, e, p)))
  {
    SameOwn(s, SetPriority(s, e, p), c);
    if 1 <= p <= MAX_PRIORITY {
      SetPriorityTable(s, e, p);
    }
  }

  // ---- When an event keeps the invariant -------------------------------------------------

  // The calls that write another environment's status without looking at it first.
  predicate Safe(s: Sys, ev: Event)
    requires Shape(s) && Enabled(s, ev)
  {
    match ev
    case Begin(_) => true
    case Wake(_) => true
    case Finish(_) => true
    case Enter(c, why) => Is(s, Cur(s, c), Dying) || SafeCall(s, c, why)
  }

  // sys_env_set_status must not name an environment another CPU holds, nor must a message wake one
  // (its flag can be left over from a rejected receive); sys_env_destroy, and
  // sys_env_set_pgfault_upcall with a bad handler, must not name one that is already DYING.
  predicate SafeCall(s: Sys, c: nat, why: Cause)
    requires Shape(s) && c < |s.cpus| && Cur(s, c).At?
  {
    match why
    case Set(id, st) =>
      var target := Envid2env(s, c, id, true);
      (st == Runnable || st == NotRunnable) && target.At? && target != Cur(s, c) ==> !Held(s.envs[target.slot])
    case Kill(id) =>
      var target := Envid2env(s, c, id, true);
      target.At? ==> s.envs[target.slot].status != Dying
    case Upcall(id, mapped) =>
      var target := Envid2env(s, c, id, true);
      !mapped && target.At? ==> s.envs[target.slot].status != Dying
    case Send(id, page) =>
      var target := Envid2env(s, c, id, false);
      page >= 0 && target.At? && target != Cur(s, c) && s.envs[target.slot].recving ==> !Held(s.envs[target.slot])
    case _ => true
  }

  lemma DispatchKeeps(s: Sys, c: nat, why: Cause)
    requires Table(s) && c < |s.cpus| && KernelOwn(s, c) && Is(s, Cur(s, c), Running) && SafeCall(s, c, why)
    ensures var x := Dispatch(s, c, why);
      && Table(x.s)
      && (x.Returned? ==> KernelOwn(x.s, c) && !Is(x.s, Cur(x.s, c), Dying))
      && (x.Left? && LockFree(x.s) ==> Own(x.s))
  {
    hide Own, Owners, Distinct, Ids, FreeList, Priorities, LockFree,
      SchedYield, Exofork, EnvSetStatus, IpcSend, IpcRecv, ReapCurrent, EnvDestroy;
    match why
    case Timer =>
      UpdatePriorityTable(s, c);
      SameOwn(s, UpdatePriority(s, c), c);
      YieldOwn(UpdatePriority(s, c), c);
    case Yield => YieldOwn(s, c);
    case Fork(memory) => ExoforkTable(s, c, memory);
    case Set(id, st) => SetKeeps(s, c, id, st);
    case Kill(id) =>
      var r := Envid2env(s, c, id, true);
      if r.At? { KillKeeps(s, c, r.slot); }
    case Inc(id) => PriorityCalls(s, c, id);
    case Red(id) => PriorityCalls(s, c, id);
    case Upcall(id, mapped) =>
      var r := Envid2env(s, c, id, true);
      if r.At? && !mapped { KillKeeps(s, c, r.slot); }
    case Send(id, page) => SendKeeps(s, c, id, page);
    case Recv(valid) => RecvKeeps(s, c, valid);
    case Crash => ReapOwn(s, c);
    case Other =>
  }

  lemma SetKeeps(s: Sys, c: nat, id: int, st: Status)
    requires Table(s) && c < |s.cpus| && KernelOwn(s, c) && Is(s, Cur(s, c), Running) && SafeCall(s, c, Set(id, st))
    ensures var x := EnvSetStatus(s, c, id, st);
      x.Returned? && Table(x.s) && KernelOwn(x.s, c) && !Is(x.s, Cur(x.s, c), Dying)
  {
    var r := Envid2env(s, c, id, true);
    if (st == Runnable || st == NotRunnable) && r.At? {
      SetStatusTable(s, r.slot, st);
      StatusOwn(s, SetStatus(s, r.slot, st), c, r.slot);
    }
  }

  lemma KillKeeps(s: Sys, c: nat, e: nat)
    requires Table(s) && c < |s.cpus| && KernelOwn(s, c) && Is(s, Cur(s, c), Running) && e < NENV
    requires s.envs[e].status != Dying && s.envs[e].status != Free
    ensures var x := EnvDestroy(s, c, e);
      && Table(x.s)
      && (x.Returned? ==> KernelOwn(x.s, c) && Is(x.s, Cur(x.s, c), Running))
      && (x.Left? && LockFree(x.s) ==> Own(x.s))
  {
    if Cur(s, c) == At(e) {
      ReapOwn(s, c);
    } else if s.envs[e].status == Running {
      SetStatusTable(s, e, Dying);
      DyingOwn(s, c, e);
    } else {
      EnvFreeTable(s, e);
      StatusOwn(s, EnvFree(s, e), c, e);
    }
  }

  lemma RecvingKeeps(s: Sys, c: nat, e: nat, recving: bool)
    requires Table(s) && c < |s.cpus| && KernelOwn(s, c) && e < NENV
    ensures Table(SetRecving(s, e, recving)) && KernelOwn(SetRecving(s, e, recving), c)
  {
    var t := SetRecving(s, e, recving);
    assert forall k :: 0 <= k < NENV ==> (InRange(s.envs[k]) ==> InRange(t.envs[k]));
    SameOwn(s, t, c);
  }

  lemma SendKeeps(s: Sys, c: nat, id: int, page: int)
    requires Table(s) && c < |s.cpus| && KernelOwn(s, c) && Is(s, Cur(s, c), Running) && SafeCall(s, c, Send(id, page))
    ensures var x := IpcSend(s, c, id, page);
      x.Returned? && Table(x.s) && KernelOwn(x.s, c) && !Is(x.s, Cur(x.s, c), Dying)
  {
    hide Ids, FreeList, Priorities, Owners, Distinct;
    var r := Envid2env(s, c, id, false);
    if r.At? && s.envs[r.slot].recving && page >= 0 {
      RecvingKeeps(s, c, r.slot, false);
      var t := SetRecving(s, r.slot, false);
      SetStatusTable(t, r.slot, Runnable);
      StatusOwn(t, SetStatus(t, r.slot, Runnable), c, r.slot);
    }
  }

  lemma RecvKeeps(s: Sys, c: nat, valid: bool)
    requires Table(s) && c < |s.cpus| && KernelOwn(s, c) && Is(s, Cur(s, c), Running)
    ensures var x := IpcRecv(s, c, valid);
      && Table(x.s)
      && (x.Returned? ==> KernelOwn(x.s, c) && Is(x.s, Cur(x.s, c), Running))
      && (x.Left? && LockFree(x.s) ==> Own(x.s))
  {
    hide Ids, FreeList, Priorities, Owners, Distinct;
    var e := Cur(s, c).slot;
    RecvingKeeps(s, c, e, true);
    var t := SetRecving(s, e, true);
    if valid {
      SetStatusTable(t, e, NotRunnable);
      StatusOwn(t, SetStatus(t, e, NotRunnable), c, e);
      YieldOwn(SetStatus(t, e, NotRunnable), c);
    }
  }

  // If a system call takes an environment away from the CPU that holds it, the invariant breaks.
  lemma StolenBreaks(s: Sys, t: Sys, c: nat, e: nat)
    requires Shape(s) && Shape(t) && c < |s.cpus| && Own(s) && t.cpus == s.cpus && e < NENV
    requires Held(s.envs[e]) && Cur(s, c) != At(e) && !Held(t.envs[e]) && Is(t, Cur(t, c), Running)
    ensures LockFree(Resume(t, c)) && !Own(Resume(t, c))
  {
    var u := Resume(t, c);
    assert Owned(s, e);
    var d :| 0 <= d < |s.cpus| && s.cpus[d].cur == At(e);
    assert Settled(s, d);
    assert u.cpus[d] == s.cpus[d];
    assert !Settled(u, d);
    forall k | 0 <= k < |u.cpus|
      ensures u.cpus[k].mode != Monitor
    {
      assert Settled(s, k);
    }
  }

  lemma UnsafeBreaks(s: Sys, c: nat, why: Cause)
    requires Table(s) && c < |s.cpus| && Own(s) && s.cpus[c].mode == User && Is(s, Cur(s, c), Running)
    requires !SafeCall(s, c, why)
    ensures LockFree(Trap(s, c, why)) && !Own(Trap(s, c, why))
  {
    hide Own, LockFree, Ids, FreeList, Priorities, Resume;
    match why
    case Set(id, st) =>
      var e := Envid2env(s, c, id, true).slot;
      StolenBreaks(s, SetStatus(s, e, st), c, e);
    case Kill(id) =>
      var e := Envid2env(s, c, id, true).slot;
      StolenBreaks(s, EnvFree(s, e), c, e);
    case Upcall(id, mapped) =>
      var e := Envid2env(s, c, id, true).slot;
      StolenBreaks(s, EnvFree(s, e), c, e);
    case Send(id, page) =>
      var e := Envid2env(s, c, id, false).slot;
      StolenBreaks(s, SetStatus(SetRecving(s, e, false), e, Runnable), c, e);
    case _ =>
  }

  lemma FinishOwn(s: Sys, c: nat)
    requires Table(s) && Own(s) && LockFree(s) && Enabled(s, Finish(c))
    ensures Table(Step(s, Finish(c))) && Own(Step(s, Finish(c)))
  {
    var t := Step(s, Finish(c));
    var e := Cur(s, c).slot;
    assert Settled(s, c);
    forall d | 0 <= d < |t.cpus|
      ensures Settled(t, d)
    {
      assert Settled(s, d);
      assert d != c ==> s.cpus[d].cur != At(e);
    }
    forall k | 0 <= k < NENV && Held(t.envs[k])
      ensures Owned(t, k)
    {
      assert Owned(s, k);
      var d :| 0 <= d < |s.cpus| && s.cpus[d].cur == At(k);
      assert t.cpus[d].cur == At(k);
    }
    assert forall k :: 0 <= k < NENV ==> (InRange(s.envs[k]) ==> InRange(t.envs[k]));
  }

  lemma EnterKeeps(s: Sys, c: nat, why: Cause)
    requires Table(s) && c < |s.cpus| && Own(s) && s.cpus[c].mode == User
    ensures Cur(s, c).At?
    ensures Table(Trap(s, c, why)) && (LockFree(Trap(s, c, why)) ==> Own(Trap(s, c, why))) <==>
            Is(s, Cur(s, c), Dying) || SafeCall(s, c, why)
  {
    assert Settled(s, c);
    OwnKernel(s, c);
    hide Own, KernelOwn, Ids, FreeList, Priorities, SafeCall, LockFree;
    if Is(s, Cur(s, c), Dying) {
      ReapOwn(s, c);
    } else if SafeCall(s, c, why) {
      DispatchKeeps(s, c, why);
      var x := Dispatch(s, c, why);
      if x.Returned? {
        ResumeOwn(x.s, c);
      }
    } else {
      UnsafeBreaks(s, c, why);
    }
  }

  // Every event keeps the invariant exactly when it is safe.
  lemma StepKeeps(s: Sys, ev: Event)
    requires Inv(s) && Enabled(s, ev)
    ensures Inv(Step(s, ev)) <==> Safe(s, ev)
  {
    assert Settled(s, ev.c);
    match ev
    case Begin(c) =>
      OwnKernel(s, c);
      YieldOwn(s, c);
    case Wake(c) =>
      OwnKernel(s, c);
      YieldOwn(s, c);
    case Finish(c) =>
      FinishOwn(s, c);
    case Enter(c, why) =>
      hide Own, Ids, FreeList, Priorities, SafeCall;
      EnterKeeps(s, c, why);
  }
}
