/**
 * The scheduler in the form of the kernel sources: arrays of environments, links and CPUs updated
 * in place, scan loops and the chain of free environments. Each method computes the new state of
 * Sched and says what that state means to its callers.
 */
module SchedKernel {
  import opened EnvIds
  import opened Sched
  import opened SchedInv

  lemma ScanStep(table: seq<Env>, next: nat, i: nat, best: Slot, bestPriority: int)
    requires |table| == NENV && i < NENV && (best.At? ==> best.slot < NENV)
    ensures var k := (i + next) % NENV;
      Scan(table, next, i, best, bestPriority) ==
        if table[k].status == Runnable && table[k].priority == 1 then At(k)
        else if table[k].status == Runnable && table[k].priority < bestPriority
        then Scan(table, next, i + 1, At(k), table[k].priority)
        else Scan(table, next, i + 1, best, bestPriority)
  {
  }

  lemma ScanEnd(table: seq<Env>, next: nat, best: Slot, bestPriority: int)
    requires |table| == NENV && (best.At? ==> best.slot < NENV)
    ensures Scan(table, next, NENV, best, bestPriority) == best
  {
  }

  // ---- The chain of free environments ----------------------------------------------------

  function Nth(free: seq<nat>, i: nat): Slot { if i < |free| then At(free[i]) else Null }

  // env_free_list and env_link thread the environments of free; the links of the others are stale.
  ghost predicate Chain(head: Slot, links: seq<Slot>, free: seq<nat>) {
    && head == Nth(free, 0)
    && (forall i :: 0 <= i < |free| ==> free[i] < |links| && links[free[i]] == Nth(free, i + 1))
  }

  lemma ChainInit(links: seq<Slot>)
    requires |links| == NENV && links[NENV - 1] == Null && (forall k :: 0 <= k < NENV - 1 ==> links[k] == At(k + 1))
    ensures Chain(At(0), links, seq(NENV, i => i))
  {
  }

  lemma InitIs(ncpu: nat, envs: seq<Env>, cpus: seq<Cpu>)
    requires |envs| == NENV && (forall k :: 0 <= k < NENV ==> envs[k] == Env(0, 0, Free, 0, 0, 0, false))
    requires |cpus| == ncpu && (forall k :: 0 <= k < ncpu ==> cpus[k] == Cpu(Null, Boot))
    ensures Sys(envs, cpus, 0, seq(NENV, i => i), seq(NENV, _ => 0)) == EnvInit(ncpu)
  {
    assert envs == EnvInit(ncpu).envs;
    assert cpus == EnvInit(ncpu).cpus;
  }

  lemma ChainPop(head: Slot, links: seq<Slot>, free: seq<nat>)
    requires Chain(head, links, free) && head.At?
    ensures free != [] && head.slot == free[0] < |links| && Chain(links[head.slot], links, free[1..])
  {
    var rest := free[1..];
    forall i | 0 <= i < |rest| ensures rest[i] < |links| && links[rest[i]] == Nth(rest, i + 1) {
      assert rest[i] == free[i + 1];
    }
  }

  lemma ChainPush(head: Slot, links: seq<Slot>, free: seq<nat>, e: nat)
    requires Chain(head, links, free) && e < |links| && e !in free
    ensures Chain(At(e), links[e := head], [e] + free)
  {
    var l, m := [e] + free, links[e := head];
    forall i | 0 <= i < |l| ensures l[i] < |m| && m[l[i]] == Nth(l, i + 1) {
      if i > 0 {
        assert l[i] == free[i - 1] && links[free[i - 1]] == Nth(free, i);
      }
    }
  }

  // ---- What callers may rely on ----------------------------------------------------------

  // Every environment but e is as it was.
  predicate Others(s: Sys, t: Sys, e: nat)
    requires Shape(s) && Shape(t)
  {
    forall k :: 0 <= k < NENV && k != e ==> t.envs[k] == s.envs[k]
  }

  predicate CurLives(s: Sys, c: nat)
    requires Shape(s) && c < |s.cpus|
  {
    Cur(s, c).At? ==> s.envs[Cur(s, c).slot].status != Free
  }

  // From s to t only the environment current on c is charged with a tick, and only priorities change.
  predicate Charged(s: Sys, t: Sys, c: nat)
    requires Shape(s) && Shape(t) && c < |s.cpus|
  {
    forall k :: 0 <= k < NENV ==>
      t.envs[k] == s.envs[k].(priority := t.envs[k].priority, slices := s.envs[k].slices + if Cur(s, c) == At(k) then 1 else 0)
  }

  lemma ChargedTick(s: Sys, c: nat)
    requires Shape(s) && c < |s.cpus|
    ensures Charged(s, UpdatePriority(s, c), c)
  {
  }

  lemma ChargeIs(e: Env)
    ensures var n := e.slices + 1;
      Charge(e) == if n % MAX_ENV_TIME_SLICES == 0 && e.priority < MAX_PRIORITY
                   then e.(slices := n, priority := e.priority + 1) else e.(slices := n)
  {
  }

  // A CPU in the kernel on behalf of its running environment.
  predicate Serving(s: Sys, c: nat) {
    Table(s) && c < |s.cpus| && KernelOwn(s, c) && Is(s, Cur(s, c), Running)
  }

  // What the kernel leaves behind when it does not return to the caller, and when it does.
  predicate Departed(s: Sys) { Table(s) && (LockFree(s) ==> Own(s)) }

  // The environment id names for the environment running on c.
  predicate Names(s: Sys, c: nat, id: int, check: bool, e: nat)
    requires Shape(s) && c < |s.cpus| && Cur(s, c).At? && e < NENV
  {
    || (id == 0 && Cur(s, c) == At(e))
    || (&& id != 0 && s.envs[e].status != Free && s.envs[e].id == id
        && (check ==> Cur(s, c) == At(e) || s.envs[e].parent == s.envs[Cur(s, c).slot].id))
  }

  // e is the caller or its child.
  predicate Kin(s: Sys, c: nat, e: nat)
    requires Shape(s) && c < |s.cpus| && Cur(s, c).At? && e < NENV
  {
    Cur(s, c) == At(e) || s.envs[e].parent == s.envs[Cur(s, c).slot].id
  }

  // The priority of e, and nothing else, moves by step within 1..10.
  predicate Moved(s: Sys, t: Sys, e: nat, step: int)
    requires Shape(s) && Shape(t) && e < NENV
  {
    var p := s.envs[e].priority + step;
    t.envs[e].priority == (if p < 1 then 1 else if p > 10 then 10 else p) && Others(s, t, e)
  }

  predicate SomeRunnable(s: Sys)
    requires Shape(s)
  {
    exists e :: 0 <= e < NENV && s.envs[e].status == Runnable
  }

  // run is what sched_pr owes CPU c: of the runnable environments one with the best priority, the
  // first such after the one c ran last; else the one c runs, if it still may; else none.
  ghost predicate Due(s: Sys, c: nat, run: Slot)
    requires Shape(s) && c < |s.cpus|
  {
    if SomeRunnable(s) then exists w :: Best(s.envs, Start(s, c), w) && run == At(Ring(Start(s, c), w))
    else run == if Is(s, Cur(s, c), Running) then Cur(s, c) else Null
  }

  lemma ChooseDue(s: Sys, c: nat)
    requires Table(s) && c < |s.cpus| && KernelOwn(s, c)
    ensures Due(s, c, Choose(s, c))
  {
    var w := ChooseBest(s, c);
  }

  class Machine {
    const envs: array<Env>
    const links: array<Slot>   // envs[].env_link
    const cpus: array<Cpu>
    var boostTimeSlices: int
    var freeList: Slot         // env_free_list
    ghost var free: seq<nat>
    ghost var gens: seq<nat>

    ghost function Model(): Sys
      reads this, envs, cpus
    {
      Sys(envs[..], cpus[..], boostTimeSlices, free, gens)
    }

    ghost predicate Valid()
      reads this, envs, links, cpus
    {
      Shape(Model()) && links.Length == NENV && Chain(freeList, links[..], free)
    }

    // mem_init clears the table.
    constructor (ncpu: nat)
      ensures Valid() && fresh(envs) && fresh(links) && fresh(cpus)
      ensures Model() == EnvInit(ncpu).(free := [])
    {
      envs := new Env[NENV](_ => Env(0, 0, Free, 0, 0, 0, false));
      links := new Slot[NENV](_ => Null);
      cpus := new Cpu[ncpu](_ => Cpu(Null, Boot));
      boostTimeSlices := 0;
      freeList := Null;
      free := [];
      gens := seq(NENV, _ => 0);
      new;
      InitIs(ncpu, envs[..], cpus[..]);
    }

    // env_init: every environment is on the chain, and the first ones are handed out first.
    method Init()
      requires Valid() && Model() == EnvInit(cpus.Length).(free := [])
      modifies this`freeList, this`free, envs, links
      ensures Valid() && Model() == EnvInit(cpus.Length)
    {
      hide Chain;
      ghost var table := envs[..];
      var i := 0;
      while i < NENV
        invariant 0 <= i <= NENV && envs[..] == table
        invariant forall k :: 0 <= k < i ==> links[k] == At(k + 1)
      {
        assert table[i] == Env(0, 0, Free, 0, 0, 0, false);
        envs[i] := envs[i].(id := 0, status := Free);
        links[i] := At(i + 1);
        i := i + 1;
      }
      links[NENV - 1] := Null;
      freeList := At(0);
      ChainInit(links[..]);
      free := seq(NENV, i => i);
    }

    // ---- Priorities ----------------------------------------------------------------------

    method Boost()
      requires Valid()
      modifies this`boostTimeSlices, envs
      ensures Valid() && Model() == BoostAll(old(Model()))
    {
      boostTimeSlices := boostTimeSlices + 1;
      if boostTimeSlices == MAX_TIMESLICES_BOOST {
        var i := 0;
        while i < NENV
          invariant 0 <= i <= NENV == envs.Length
          invariant envs[..i] == Reset(old(envs[..]))[..i]
          invariant envs[i..] == old(envs[..])[i..]
          modifies envs
        {
          assert envs[i] == envs[i..][0];
          envs[i] := envs[i].(priority := 1);
          i := i + 1;
        }
        assert envs[..] == envs[..i] + envs[i..];
        boostTimeSlices := 1;
      }
    }

    // update_priority: only the environment that had the tick is charged, only priorities change
    // for the others, and live priorities stay in 1..10.
    method ChargeTick(c: nat)
      requires Valid() && c < cpus.Length
      modifies this`boostTimeSlices, envs
      ensures Valid() && Model() == UpdatePriority(old(Model()), c) && Charged(old(Model()), Model(), c)
      ensures Table(old(Model())) && CurLives(old(Model()), c) ==> Table(Model())
    {
      hide Chain, Table, Charged, Charge, BoostAll;
      ghost var s := Model();
      ChargedTick(s, c);
      if Table(s) && CurLives(s, c) {
        UpdatePriorityTable(s, c);
      }
      assert cpus[..][c] == cpus[c];
      if cpus[c].cur == Null {
        return;
      }
      var e := cpus[c].cur.slot;
      envs[e] := envs[e].(slices := envs[e].slices + 1);
      if envs[e].slices % MAX_ENV_TIME_SLICES == 0 && envs[e].priority < MAX_PRIORITY {
        envs[e] := envs[e].(priority := envs[e].priority + 1);
      }
      ChargeIs(s.envs[e]);
      assert envs[..] == s.envs[e := Charge(s.envs[e])];
      Boost();
    }

    // ---- Scheduling ----------------------------------------------------------------------

    // The scan with its running best candidate and early exit.
    method ScanFrom(next: nat) returns (run: Slot)
      requires Valid()
      ensures run == Scan(envs[..], next, 0, Null, MAX_PRIORITY + 1)
    {
      hide Scan;
      ghost var table := envs[..];
      var bestPriority := MAX_PRIORITY + 1;
      run := Null;
      var i := 0;
      while i < NENV
        invariant 0 <= i <= NENV && (run.At? ==> run.slot < NENV)
        invariant Scan(table, next, 0, Null, MAX_PRIORITY + 1) == Scan(table, next, i, run, bestPriority)
      {
        var ind := (i + next) % NENV;
        ScanStep(table, next, i, run, bestPriority);
        if envs[ind].status == Runnable && envs[ind].priority == 1 {
          return At(ind);
        }
        if envs[ind].status == Runnable && envs[ind].priority < bestPriority {
          run := At(ind);
          bestPriority := envs[ind].priority;
        }
        i := i + 1;
      }
      ScanEnd(table, next, run, bestPriority);
    }

    // sched_pr
    method SchedPr(c: nat) returns (run: Slot)
      requires Valid() && c < cpus.Length
      ensures run == Choose(Model(), c)
      ensures Table(Model()) && KernelOwn(Model(), c) ==> Due(Model(), c, run)
    {
      hide Scan, Due, Table, KernelOwn;
      var next := 0;
      var cur := cpus[c].cur;
      assert cpus[..][c] == cpus[c];
      if cur.At? {
        next := Envx(envs[cur.slot].id) + 1;
      }
      run := ScanFrom(next);
      if cur.At? && envs[cur.slot].status == Running && envs[cur.slot].cpunum == c && run == Null {
        run := cur;
      }
      if Table(Model()) && KernelOwn(Model(), c) {
        ChooseDue(Model(), c);
      }
    }

    // env_run up to the release of the lock: e is the one environment running on c, the one it
    // takes over from can be scheduled again, and every other CPU runs what it ran.
    method Switch(c: nat, e: nat)
      requires Valid() && Table(Model()) && c < cpus.Length && e < NENV && envs[e].status != Free
      modifies envs, cpus
      ensures Valid() && Table(Model()) && Model() == EnvRun(old(Model()), c, e)
      ensures var s := old(Model());
        && KernelOwn(s, c) && (Is(s, At(e), Runnable) || (Is(s, At(e), Running) && Cur(s, c) == At(e))) && !Is(s, Cur(s, c), Dying)
        ==> Own(Model()) && LockFree(Model())
    {
      hide Table, KernelOwn, Own, LockFree;
      ghost var s := Model();
      EnvRunTable(s, c, e);
      if KernelOwn(s, c) && (Is(s, At(e), Runnable) || (Is(s, At(e), Running) && Cur(s, c) == At(e))) && !Is(s, Cur(s, c), Dying) {
        EnvRunOwn(s, c, e);
      }
      var cur := cpus[c].cur;
      assert cpus[..][c] == cpus[c];
      if cur.At? && envs[cur.slot].status == Running {
        envs[cur.slot] := envs[cur.slot].(status := Runnable);
      }
      cpus[c] := Cpu(At(e), Tail);
      envs[e] := envs[e].(status := Running);
    }

    // The last write of env_run, after the release of the lock. Whatever other CPUs did meanwhile,
    // the invariant holds after it.
    method SwitchEnd(c: nat)
      requires Valid() && Inv(Model()) && c < cpus.Length && Enabled(Model(), Finish(c))
      modifies envs, cpus
      ensures Valid() && Model() == Step(old(Model()), Finish(c)) && Inv(Model())
    {
      hide Inv;
      StepKeeps(Model(), Finish(c));
      assert cpus[..][c] == cpus[c];
      var e := cpus[c].cur.slot;
      envs[e] := envs[e].(cpunum := c);
      cpus[c] := cpus[c].(mode := User);
    }

    // sched_halt: the CPU halts while some environment is alive, else it stays in the monitor.
    method Halt(c: nat)
      requires Valid() && c < cpus.Length
      modifies cpus
      ensures Valid() && Model() == SchedHalt(old(Model()), c)
    {
      var i := 0;
      while i < NENV
        invariant 0 <= i <= NENV
        invariant forall k :: 0 <= k < i ==> !Alive(envs[..][k])
      {
        if envs[i].status == Runnable || envs[i].status == Running || envs[i].status == Dying {
          break;
        }
        i := i + 1;
      }
      if i == NENV {
        cpus[c] := cpus[c].(mode := Monitor);
      } else {
        assert Alive(envs[..][i]);
        cpus[c] := Cpu(Null, Halted);
      }
    }

    // sched_yield: what is due runs, and the table is one other CPUs may find.
    method Yield(c: nat)
      requires Valid() && Table(Model()) && c < cpus.Length && KernelOwn(Model(), c)
      requires !Is(Model(), Cur(Model(), c), Dying)
      modifies envs, cpus
      ensures Valid() && Model() == SchedYield(old(Model()), c) && Departed(Model())
      ensures Cur(Model(), c).At? && LockFree(Model()) ==> Due(old(Model()), c, Cur(Model(), c))
    {
      hide Table, KernelOwn, Own, LockFree, Due, Choose, Chain;
      ghost var s := Model();
      YieldOwn(s, c);
      ChosenLives(s, c);
      var run := SchedPr(c);
      if run.At? {
        Switch(c, run.slot);
      } else {
        Halt(c);
        HaltGoes(s, c);
      }
    }

    // ---- Environments come and go --------------------------------------------------------

    // env_alloc: the head of the chain, with a new id that encodes its slot, and nothing else; it
    // fails without a free environment, or without memory for the directory.
    method Alloc(parent: int, memory: bool) returns (err: int, e: nat)
      requires Valid()
      modifies this`freeList, this`free, this`gens, envs
      ensures Valid() && (Model(), err, e) == EnvAlloc(old(Model()), parent, memory)
      ensures old(Table(Model())) ==>
        && (err == E_NO_FREE_ENV <==> forall k :: 0 <= k < NENV ==> old(envs[..])[k].status != Free)
        && (err != 0 ==> Model() == old(Model()))
        && (err == 0 ==>
              && old(envs[..])[e].status == Free && Others(old(Model()), Model(), e)
              && 0 < envs[..][e].id == IdAt(e, gens[e]) && Envx(envs[..][e].id) == e && envs[..][e].parent == parent)
    {
      hide Table, Chain;
      ghost var s := Model();
      if Table(s) {
        EnvAllocTable(s, parent, memory);
        EnvAllocFailsOnlyWhen(s, parent, memory);
      }
      ChainEmpty(freeList, links[..], free);
      if freeList == Null {
        return E_NO_FREE_ENV, 0;
      }
      if !memory {
        return E_NO_MEM, 0;
      }
      e := freeList.slot;
      ChainPop(freeList, links[..], free);
      envs[e] := envs[e].(id := NextId(envs[e].id, e), parent := parent, status := Runnable, recving := false);
      freeList := links[e];
      free := free[1..];
      gens := gens[e := gens[e] + 1];
      err := 0;
    }

    method Create(memory: bool) returns (err: int)
      requires Valid()
      modifies this`freeList, this`free, this`gens, envs
      ensures Valid() && (Model(), err) == EnvCreate(old(Model()), memory)
    {
      var e;
      err, e := Alloc(0, memory);
      if err == 0 {
        envs[e] := envs[e].(priority := 1);
      }
    }

    // env_free: e is the head of the chain, and the chain holds exactly the free environments.
    method FreeEnv(e: nat)
      requires Valid() && Table(Model()) && e < NENV && envs[e].status != Free
      modifies this`freeList, this`free, envs, links
      ensures Valid() && Table(Model()) && Model() == EnvFree(old(Model()), e)
      ensures freeList == At(e) && Others(old(Model()), Model(), e)
    {
      hide Chain;
      EnvFreeTable(Model(), e);
      NotInFree(Model(), e);
      envs[e] := envs[e].(status := Free);
      ChainPush(freeList, links[..], free, e);
      links[e] := freeList;
      freeList := At(e);
      free := [e] + free;
    }

    // env_free of the running environment, after which something else runs.
    method Reap(c: nat)
      requires Valid() && Table(Model()) && c < cpus.Length && KernelOwn(Model(), c) && cpus[c].cur.At?
      modifies this`freeList, this`free, envs, links, cpus
      ensures Valid() && Model() == ReapCurrent(old(Model()), c) && Departed(Model())
    {
      hide Table, KernelOwn, Own, LockFree, Due, Chain;
      ghost var s := Model();
      assert cpus[..][c] == cpus[c];
      ReapReady(s, c);
      FreeEnv(cpus[c].cur.slot);
      cpus[c] := cpus[c].(cur := Null);
      Yield(c);
    }

    // env_destroy; left: another environment runs now and the caller is not returned to. It goes
    // well exactly when e was not DYING yet (see KillKeeps and UnsafeBreaks).
    method DestroyEnv(c: nat, e: nat) returns (left: bool)
      requires Valid() && c < cpus.Length && Serving(Model(), c) && e < NENV && envs[e].status != Free
      modifies this`freeList, this`free, envs, links, cpus
      ensures Valid() && (if left then Left(Model()) else Returned(Model(), 0)) == EnvDestroy(old(Model()), c, e)
      ensures left <==> old(Cur(Model(), c)) == At(e)
      ensures left ==> Departed(Model())
      ensures !left && old(envs[e].status) != Dying ==> Serving(Model(), c)
      ensures !left ==> Table(Model()) && Others(old(Model()), Model(), e)
      ensures !left ==> envs[e].status == if old(envs[e].status) == Running then Dying else Free
    {
      hide Table, KernelOwn, Own, LockFree, Chain;
      ghost var s := Model();
      assert cpus[..][c] == cpus[c];
      if s.envs[e].status != Dying {
        KillKeeps(s, c, e);
      }
      if envs[e].status == Running && cpus[c].cur != At(e) {
        SetStatusTable(s, e, Dying);
        envs[e] := envs[e].(status := Dying);
        return false;
      }
      if cpus[c].cur == At(e) {
        Reap(c);
        return true;
      }
      FreeEnv(e);
      return false;
    }

    // ---- System calls --------------------------------------------------------------------

    // envid2env: exactly the environment that id names, or none if there is no such.
    method Lookup(c: nat, id: int, check: bool) returns (r: Slot)
      requires Valid() && c < cpus.Length && cpus[c].cur.At?
      ensures r == Envid2env(Model(), c, id, check)
      ensures Table(Model()) && Is(Model(), Cur(Model(), c), Running) ==>
        forall e :: 0 <= e < NENV ==> (r == At(e) <==> Names(Model(), c, id, check, e))
    {
      hide Table, Chain;
      ghost var s := Model();
      assert cpus[..][c] == cpus[c];
      if Table(s) && Is(s, Cur(s, c), Running) {
        forall e | 0 <= e < NENV ensures Envid2env(s, c, id, check) == At(e) <==> Names(s, c, id, check, e) {
          ResolveMeans(s, c, id, check, e);
        }
      }
      if id == 0 {
        return cpus[c].cur;
      }
      var e := Envx(id);
      if envs[e].status == Free || envs[e].id != id {
        return Null;
      }
      if check && At(e) != cpus[c].cur && envs[e].parent != envs[cpus[c].cur.slot].id {
        return Null;
      }
      return At(e);
    }

    // sys_exofork: a child that cannot run yet, with its parent's priority and no ticks of its own.
    method SysExofork(c: nat, memory: bool) returns (r: int)
      requires Valid() && c < cpus.Length && Serving(Model(), c)
      modifies this`freeList, this`free, this`gens, envs
      ensures Valid() && Returned(Model(), r) == Exofork(old(Model()), c, memory) && Serving(Model(), c)
      ensures r < 0 ==> Model() == old(Model()) && (r == E_NO_FREE_ENV || r == E_NO_MEM)
      ensures r >= 0 ==> var s, cur, e := old(Model()), old(Model()).cpus[c].cur.slot, Envx(r);
        && s.envs[e].status == Free && Others(s, Model(), e)
        && Model().envs[e] == Env(r, s.envs[cur].id, NotRunnable, s.envs[cur].priority, 0, s.envs[e].cpunum, false)
    {
      hide Table, KernelOwn, Chain, Exofork, EnvAlloc;
      ghost var s := Model();
      ExoforkTable(s, c, memory);
      ExoforkIs(s, c, memory);
      assert cpus[..][c] == cpus[c];
      var err, e := Alloc(envs[cpus[c].cur.slot].id, memory);
      if err != 0 {
        return err;
      }
      ghost var t := Model();
      envs[e] := envs[e].(status := NotRunnable);
      assert Model() == SetStatus(t, e, NotRunnable);
      var parent := Lookup(c, envs[e].parent, false);
      var p := if parent.At? then envs[parent.slot].priority else -1;
      envs[e] := envs[e].(priority := p);
      envs[e] := envs[e].(slices := 0);
      assert envs[..] == t.envs[e := t.envs[e].(status := NotRunnable, priority := p, slices := 0)];
      r := envs[e].id;
    }

    // sys_env_set_status: exactly the environment named gets the status. The caller can be
    // returned to exactly when the environment is itself, or no other CPU holds it.
    method SysEnvSetStatus(c: nat, id: int, st: Status) returns (r: int)
      requires Valid() && c < cpus.Length && Serving(Model(), c)
      modifies envs
      ensures Valid() && Returned(Model(), r) == EnvSetStatus(old(Model()), c, id, st)
      ensures r == E_INVAL <==> st != Runnable && st != NotRunnable
      ensures r != 0 ==> Model() == old(Model())
      ensures r == 0 ==> exists e :: (0 <= e < NENV && Names(old(Model()), c, id, true, e)
                                      && Model() == SetStatus(old(Model()), e, st))
      ensures SafeCall(old(Model()), c, Set(id, st)) ==> Table(Model()) && KernelOwn(Model(), c)
    {
      hide Table, KernelOwn, Chain, SafeCall;
      ghost var s := Model();
      if SafeCall(s, c, Set(id, st)) {
        SetKeeps(s, c, id, st);
      }
      if st != Runnable && st != NotRunnable {
        return E_INVAL;
      }
      var e := Lookup(c, id, true);
      if e == Null {
        return E_BAD_ENV;
      }
      assert Names(s, c, id, true, e.slot);
      envs[e.slot] := envs[e.slot].(status := st);
      return 0;
    }

    // sys_env_destroy
    method SysEnvDestroy(c: nat, id: int) returns (left: bool, r: int)
      requires Valid() && c < cpus.Length && Serving(Model(), c)
      modifies this`freeList, this`free, envs, links, cpus
      ensures Valid() && (if left then Left(Model()) else Returned(Model(), r)) == Destroy(old(Model()), c, id)
      ensures r == E_BAD_ENV && !left && Model() == old(Model()) <==>
        forall e :: 0 <= e < NENV ==> !Names(old(Model()), c, id, true, e)
      ensures left ==> Departed(Model())
      ensures !left && SafeCall(old(Model()), c, Kill(id)) ==> Serving(Model(), c)
    {
      hide Table, KernelOwn, Own, LockFree, Chain;
      ghost var s := Model();
      var e := Lookup(c, id, true);
      if e == Null {
        return false, E_BAD_ENV;
      }
      assert Names(s, c, id, true, e.slot);
      left := DestroyEnv(c, e.slot);
      r := 0;
    }

    // sys_inc_priority: one step towards 1 for the environment named, which may be neither the
    // caller nor its child.
    method SysIncPriority(c: nat, id: int) returns (r: int)
      requires Valid() && c < cpus.Length && Serving(Model(), c)
      modifies envs
      ensures Valid() && Returned(Model(), r) == IncPriority(old(Model()), c, id) && Serving(Model(), c)
      ensures r != 0 ==> r == E_UNSPECIFIED && Model() == old(Model())
      ensures r == 0 ==> exists e :: (0 <= e < NENV && Names(old(Model()), c, id, false, e)
                                      && !Kin(old(Model()), c, e) && Moved(old(Model()), Model(), e, -1))
    {
      hide Table, KernelOwn, Chain;
      ghost var s := Model();
      PriorityServes(s, c, id);
      assert cpus[..][c] == cpus[c];
      var e := Lookup(c, id, false);
      if e == Null {
        return E_UNSPECIFIED;
      }
      assert Names(s, c, id, false, e.slot);
      PriorityCallsMean(s, c, id, e.slot);
      if e == cpus[c].cur || envs[e.slot].parent == envs[cpus[c].cur.slot].id {
        return E_UNSPECIFIED;
      }
      if envs[e.slot].priority != 1 {
        envs[e.slot] := envs[e.slot].(priority := envs[e.slot].priority - 1);
      }
      return 0;
    }

    // sys_red_priority: one step towards 10 for the environment named, whichever it is.
    method SysRedPriority(c: nat, id: int) returns (r: int)
      requires Valid() && c < cpus.Length && Serving(Model(), c)
      modifies envs
      ensures Valid() && Returned(Model(), r) == RedPriority(old(Model()), c, id) && Serving(Model(), c)
      ensures r != 0 ==> r == E_UNSPECIFIED && Model() == old(Model())
      ensures r == 0 ==> exists e :: (0 <= e < NENV && Names(old(Model()), c, id, false, e)
                                      && Moved(old(Model()), Model(), e, 1))
    {
      hide Table, KernelOwn, Chain;
      ghost var s := Model();
      PriorityServes(s, c, id);
      var e := Lookup(c, id, false);
      if e == Null {
        return E_UNSPECIFIED;
      }
      assert Names(s, c, id, false, e.slot);
      PriorityCallsMean(s, c, id, e.slot);
      if envs[e.slot].priority < MAX_PRIORITY {
        envs[e.slot] := envs[e.slot].(priority := envs[e.slot].priority + 1);
      }
      return 0;
    }

    // sys_env_set_pgfault_upcall
    method SysSetUpcall(c: nat, id: int, mapped: bool) returns (left: bool, r: int)
      requires Valid() && c < cpus.Length && Serving(Model(), c)
      modifies this`freeList, this`free, envs, links, cpus
      ensures Valid() && (if left then Left(Model()) else Returned(Model(), r)) == SetUpcall(old(Model()), c, id, mapped)
      ensures mapped ==> !left && Model() == old(Model())
      ensures left ==> Departed(Model())
      ensures !left && SafeCall(old(Model()), c, Upcall(id, mapped)) ==> Serving(Model(), c)
    {
      hide Table, KernelOwn, Own, LockFree, Chain;
      var e := Lookup(c, id, true);
      if e == Null {
        return false, E_BAD_ENV;
      }
      left, r := false, 0;
      if !mapped {
        NamedLives(Model(), c, id, true);
        left := DestroyEnv(c, e.slot);
      }
    }

    // sys_ipc_try_send; page is 0, or the error the transfer of its page ended with.
    method SysIpcSend(c: nat, id: int, page: int) returns (r: int)
      requires Valid() && c < cpus.Length && Serving(Model(), c)
      modifies envs
      ensures Valid() && Returned(Model(), r) == IpcSend(old(Model()), c, id, page)
      ensures SafeCall(old(Model()), c, Send(id, page)) ==> Table(Model()) && KernelOwn(Model(), c)
    {
      hide Table, KernelOwn, Chain, SafeCall;
      ghost var s := Model();
      if SafeCall(s, c, Send(id, page)) {
        SendKeeps(s, c, id, page);
      }
      var e := Lookup(c, id, false);
      if e == Null {
        return E_BAD_ENV;
      }
      if !envs[e.slot].recving {
        return E_IPC_NOT_RECV;
      }
      if page < 0 {
        return page;
      }
      envs[e.slot] := envs[e.slot].(recving := false);
      envs[e.slot] := envs[e.slot].(status := Runnable);
      return 0;
    }

    // sys_ipc_recv: the caller sleeps until a message comes, unless its address is rejected.
    method SysIpcRecv(c: nat, valid: bool) returns (left: bool, r: int)
      requires Valid() && c < cpus.Length && Serving(Model(), c)
      modifies envs, cpus
      ensures Valid() && (if left then Left(Model()) else Returned(Model(), r)) == IpcRecv(old(Model()), c, valid)
      ensures if left then Departed(Model()) else Serving(Model(), c)
    {
      hide Table, KernelOwn, Own, LockFree, Chain, Due;
      ghost var s := Model();
      RecvKeeps(s, c, valid);
      assert cpus[..][c] == cpus[c];
      var e := cpus[c].cur.slot;
      envs[e] := envs[e].(recving := true);
      if !valid {
        return false, E_INVAL;
      }
      envs[e] := envs[e].(status := NotRunnable);
      SleepReady(s, c);
      Yield(c);
      return true, 0;
    }

    // ---- Traps ---------------------------------------------------------------------------

    // trap_dispatch: a safe cause leaves a state the caller can go on from, or other CPUs can find.
    method TrapDispatch(c: nat, why: Cause) returns (left: bool, r: int)
      requires Valid() && c < cpus.Length && Serving(Model(), c)
      modifies this, envs, links, cpus
      ensures Valid() && (if left then Left(Model()) else Returned(Model(), r)) == Dispatch(old(Model()), c, why)
      ensures SafeCall(old(Model()), c, why) ==>
        if left then Departed(Model()) else Table(Model()) && KernelOwn(Model(), c) && !Is(Model(), Cur(Model(), c), Dying)
    {
      hide Table, KernelOwn, Own, LockFree, Chain, Due, SafeCall;
      ghost var s := Model();
      if SafeCall(s, c, why) {
        DispatchKeeps(s, c, why);
      }
      left, r := false, 0;
      match why
      case Timer =>
        TickReady(s, c);
        ChargeTick(c);
        Yield(c);
        left := true;
      case Yield =>
        Yield(c);
        left := true;
      case Fork(memory) => r := SysExofork(c, memory);
      case Set(id, st) => r := SysEnvSetStatus(c, id, st);
      case Kill(id) => left, r := SysEnvDestroy(c, id);
      case Inc(id) => r := SysIncPriority(c, id);
      case Red(id) => r := SysRedPriority(c, id);
      case Upcall(id, mapped) => left, r := SysSetUpcall(c, id, mapped);
      case Send(id, page) => r := SysIpcSend(c, id, page);
      case Recv(valid) => left, r := SysIpcRecv(c, valid);
      case Crash =>
        Reap(c);
        left := true;
      case Other =>
    }

    // trap() from user mode: no environment is lost or run twice, exactly when the cause is safe.
    method Enter(c: nat, why: Cause)
      requires Valid() && c < cpus.Length && Inv(Model()) && Enabled(Model(), Event.Enter(c, why))
      modifies this, envs, links, cpus
      ensures Valid() && Model() == Step(old(Model()), Event.Enter(c, why))
      ensures Inv(Model()) <==> Safe(old(Model()), Event.Enter(c, why))
    {
      hide Table, KernelOwn, Own, LockFree, Chain, Due, SafeCall, Dispatch;
      ghost var s := Model();
      EnterReady(s, c);
      StepKeeps(s, Event.Enter(c, why));
      assert cpus[..][c] == cpus[c];
      if envs[cpus[c].cur.slot].status == Dying {
        Reap(c);
        return;
      }
      if !SafeCall(s, c, why) {
        UnsafeReturns(s, c, why);
      }
      var left, _ := TrapDispatch(c, why);
      if !left {
        var cur := cpus[c].cur;
        assert cpus[..][c] == cpus[c];
        if cur.At? && envs[cur.slot].status == Running {
          Switch(c, cur.slot);
        } else {
          Yield(c);
        }
      }
    }
  }

  // ---- Steps on values -------------------------------------------------------------------

  lemma ChainEmpty(head: Slot, links: seq<Slot>, free: seq<nat>)
    requires Chain(head, links, free)
    ensures head == Null <==> free == []
  {
  }

  lemma NotInFree(s: Sys, e: nat)
    requires Table(s) && e < NENV && s.envs[e].status != Free
    ensures e !in s.free
  {
  }

  lemma ChosenLives(s: Sys, c: nat)
    requires Table(s) && c < |s.cpus| && KernelOwn(s, c)
    ensures Choose(s, c).At? ==> s.envs[Choose(s, c).slot].status != Free
  {
    var w := ChooseBest(s, c);
    if Choose(s, c).At? && SomeRunnable(s) {
      assert s.envs[Ring(Start(s, c), w)].status == Runnable;
    }
  }

  // sys_exofork is env_alloc and three writes to the new environment.
  lemma ExoforkIs(s: Sys, c: nat, memory: bool)
    requires Shape(s) && c < |s.cpus| && Cur(s, c).At?
    ensures var (t, err, e) := EnvAlloc(s, s.envs[Cur(s, c).slot].id, memory);
      Exofork(s, c, memory) ==
        if err != 0 then Returned(t, err)
        else
          var p := GetPriority(SetStatus(t, e, NotRunnable), c, t.envs[e].parent);
          Returned(t.(envs := t.envs[e := t.envs[e].(status := NotRunnable, priority := p, slices := 0)]), t.envs[e].id)
  {
    hide EnvAlloc, GetPriority;
    var (t, err, e) := EnvAlloc(s, s.envs[Cur(s, c).slot].id, memory);
    if err == 0 {
      var u := SetStatus(t, e, NotRunnable);
      var p := GetPriority(u, c, t.envs[e].parent);
      assert u.envs[e := u.envs[e].(priority := p, slices := 0)]
          == t.envs[e := t.envs[e].(status := NotRunnable, priority := p, slices := 0)];
    }
  }

  lemma HaltGoes(s: Sys, c: nat)
    requires Shape(s) && c < |s.cpus|
    ensures Cur(SchedHalt(s, c), c).At? ==> !LockFree(SchedHalt(s, c))
  {
    var t := SchedHalt(s, c);
    assert t.cpus[c].mode == Halted || t.cpus[c].mode == Monitor;
  }

  // The states between the writes of a call are ones the next step may start from.
  lemma ReapReady(s: Sys, c: nat)
    requires Table(s) && c < |s.cpus| && KernelOwn(s, c) && Cur(s, c).At?
    ensures s.envs[Cur(s, c).slot].status != Free
    ensures var u := SetCpu(EnvFree(s, Cur(s, c).slot), c, s.cpus[c].(cur := Null));
      Table(u) && KernelOwn(u, c)
  {
    var e := Cur(s, c).slot;
    EnvFreeTable(s, e);
    ReapedOwn(s, c);
    CpuTable(EnvFree(s, e), c, s.cpus[c].(cur := Null));
  }

  lemma TickReady(s: Sys, c: nat)
    requires Serving(s, c)
    ensures Table(UpdatePriority(s, c)) && KernelOwn(UpdatePriority(s, c), c)
    ensures Is(UpdatePriority(s, c), Cur(UpdatePriority(s, c), c), Running)
  {
    hide Own, Owners, Distinct, Ids, FreeList, Priorities;
    UpdatePriorityTable(s, c);
    SameOwn(s, UpdatePriority(s, c), c);
  }

  lemma SleepReady(s: Sys, c: nat)
    requires Serving(s, c)
    ensures var e := Cur(s, c).slot; var t := SetStatus(SetRecving(s, e, true), e, NotRunnable);
      Table(t) && KernelOwn(t, c)
  {
    hide Ids, FreeList, Priorities, Owners, Distinct;
    var e := Cur(s, c).slot;
    RecvingKeeps(s, c, e, true);
    var t := SetRecving(s, e, true);
    SetStatusTable(t, e, NotRunnable);
    StatusOwn(t, SetStatus(t, e, NotRunnable), c, e);
  }

  lemma NamedLives(s: Sys, c: nat, id: int, check: bool)
    requires Serving(s, c) && Envid2env(s, c, id, check).At?
    ensures s.envs[Envid2env(s, c, id, check).slot].status != Free
  {
  }

  lemma PriorityServes(s: Sys, c: nat, id: int)
    requires Serving(s, c)
    ensures Serving(IncPriority(s, c, id).s, c) && Serving(RedPriority(s, c, id).s, c)
    ensures IncPriority(s, c, id).Returned? && RedPriority(s, c, id).Returned?
    ensures Envid2env(s, c, id, false).At? ==> 1 <= s.envs[Envid2env(s, c, id, false).slot].priority <= 10
  {
    PriorityCalls(s, c, id);
    var r := Envid2env(s, c, id, false);
    if r.At? {
      LivePriority(s, r.slot);
    }
    hide Ids, FreeList, Priorities, KernelOwn;
  }

  // An unsafe call comes back to its caller.
  lemma UnsafeReturns(s: Sys, c: nat, why: Cause)
    requires Serving(s, c) && !SafeCall(s, c, why)
    ensures var x := Dispatch(s, c, why);
      x.Returned? && Table(x.s) && Is(x.s, Cur(x.s, c), Running)
  {
    hide Ids, FreeList, Priorities, KernelOwn;
    match why
    case Set(id, st) => SetStatusTable(s, Envid2env(s, c, id, true).slot, st);
    case Kill(id) => EnvFreeTable(s, Envid2env(s, c, id, true).slot);
    case Upcall(id, mapped) => EnvFreeTable(s, Envid2env(s, c, id, true).slot);
    case Send(id, page) =>
      var e := Envid2env(s, c, id, false).slot;
      RecvingKeeps(s, c, e, false);
      SetStatusTable(SetRecving(s, e, false), e, Runnable);
    case _ =>
  }

  lemma EnterReady(s: Sys, c: nat)
    requires Inv(s) && c < |s.cpus| && LockFree(s) && s.cpus[c].mode == User
    ensures KernelOwn(s, c) && Cur(s, c).At? && Held(s.envs[Cur(s, c).slot])
  {
    assert Settled(s, c);
    OwnKernel(s, c);
  }
}
