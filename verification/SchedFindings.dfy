/** A run on two CPUs, from boot, after which a system call takes a running environment from its CPU. */
module SchedFindings {
  import opened EnvIds
  import opened Sched
  import opened SchedInv
  import opened SchedRuns

  // Some run of safe events leads to s from boot on two CPUs with one environment.
  ghost predicate Reached(s: Sys) { exists evs :: Possible(Booted(2, 1), evs) && Run(Booted(2, 1), evs) == s }

  lemma {:induction false} OneMore(s: Sys, evs: seq<Event>, ev: Event)
    requires Shape(s) && Possible(s, evs) && Enabled(Run(s, evs), ev) && Safe(Run(s, evs), ev)
    ensures Possible(s, evs + [ev]) && Run(s, evs + [ev]) == Step(Run(s, evs), ev)
    decreases |evs|
  {
    hide Step, Safe, Enabled;
    var all := evs + [ev];
    if evs == [] {
      assert all[0] == ev && all[1..] == [];
    } else {
      assert all[0] == evs[0] && all[1..] == evs[1..] + [ev];
      OneMore(Step(s, evs[0]), evs[1..], ev);
    }
  }

  lemma Next(s: Sys, ev: Event)
    requires Reached(s) && Shape(s) && Enabled(s, ev) && Safe(s, ev)
    ensures Reached(Step(s, ev)) && Inv(Step(s, ev))
  {
    hide Step, Safe, Enabled, Inv;
    var evs :| Possible(Booted(2, 1), evs) && Run(Booted(2, 1), evs) == s;
    OneMore(Booted(2, 1), evs, ev);
    BootedInv(2, 1);
    RunKeeps(Booted(2, 1), evs + [ev]);
  }

  // Environment 0 runs on CPU 0 and CPU 1 has not scheduled yet; of the others only e may be there.
  predicate First(s: Sys, mode: Mode, e: nat) {
    && Shape(s) && |s.cpus| == 2 && s.cpus[0] == Cpu(At(0), mode) && s.cpus[1] == Cpu(Null, Boot) && 0 < e < NENV
    && s.envs[0].status == Running
    && (forall k :: 0 < k < NENV && k != e ==> s.envs[k].status == Free)
  }

  // env_run's last write.
  lemma Ends(s: Sys, e: nat) returns (t: Sys)
    requires Reached(s) && Inv(s) && First(s, Tail, e)
    ensures Reached(t) && Inv(t) && First(t, User, e) && t.envs[e] == s.envs[e] && t.envs[0].id == s.envs[0].id
    ensures t.free == s.free
  {
    hide Inv, Reached;
    Next(s, Finish(0));
    t := Step(s, Finish(0));
  }

  // With one runnable environment and none current, that one runs.
  lemma OnlyOne(s: Sys, c: nat, e: nat)
    requires Inv(s) && c < |s.cpus| && Enabled(s, Begin(c)) && e < NENV && s.envs[e].status == Runnable
    requires forall k :: 0 <= k < NENV && k != e ==> s.envs[k].status != Runnable
    ensures Step(s, Begin(c)) == EnvRun(s, c, e)
  {
    assert Settled(s, c);
    OwnKernel(s, c);
    var w := ChooseBest(s, c);
    assert s.envs[Ring(Start(s, c), w)].status == Runnable;
  }

  lemma Starts() returns (t: Sys)
    ensures Reached(t) && Inv(t) && First(t, User, 1) && t.envs[1].status == Free
  {
    hide Inv, Reached, BootState, Booted, First, EnvRun, Table, Step;
    var s := Booted(2, 1);
    BootedInv(2, 1);
    BootReached();
    Alone(s);
    OnlyOne(s, 0, 0);
    Next(s, Begin(0));
    t := Ends(Step(s, Begin(0)), 1);
  }

  lemma BootReached()
    ensures Reached(Booted(2, 1))
  {
    var s := Booted(2, 1);
    assert Possible(s, []) && Run(s, []) == s;
  }

  lemma Alone(s: Sys)
    requires BootState(s, 2, 1)
    ensures |s.cpus| == 2 && Shape(s)
    ensures forall k :: 0 < k < NENV ==> s.envs[k].status != Runnable
    ensures Enabled(s, Begin(0)) && s.envs[0].status == Runnable && s.cpus[0] == s.cpus[1] == Cpu(Null, Boot)
    ensures First(EnvRun(s, 0, 0), Tail, 1) && EnvRun(s, 0, 0).envs[1].status == Free
  {
    forall k | 0 < k < NENV ensures s.envs[k].status == Free {
      assert s.free[k - 1] in s.free;
    }
    hide Table;
  }

  // The parent forks a child.
  lemma Forks(s: Sys) returns (t: Sys, e: nat)
    requires Reached(s) && Inv(s) && First(s, User, 1) && s.envs[1].status == Free
    ensures Reached(t) && Inv(t) && First(t, User, e) && t.envs[e].status == NotRunnable && t.envs[e].parent == t.envs[0].id
  {
    e := ForkStep(s);
    hide Inv, Reached, First;
    Next(s, Enter(0, Fork(true)));
    t := Ends(Step(s, Enter(0, Fork(true))), e);
  }

  lemma ForkStep(s: Sys) returns (e: nat)
    requires Inv(s) && First(s, User, 1) && s.envs[1].status == Free
    ensures Enabled(s, Enter(0, Fork(true))) && Safe(s, Enter(0, Fork(true)))
    ensures var t := Step(s, Enter(0, Fork(true)));
      First(t, Tail, e) && t.envs[e].status == NotRunnable && t.envs[e].parent == t.envs[0].id
  {
    assert 1 in s.free;
    assert Settled(s, 0);
    OwnKernel(s, 0);
    ExoforkTable(s, 0, true);
    hide Inv, Owners, Distinct, Ids, FreeList, Priorities, Exofork;
    var x := Exofork(s, 0, true);
    assert s.free != [] && x.r >= 0 by {
      ForkWorks(s);
    }
    e := Envx(x.r);
  }

  lemma ForkWorks(s: Sys)
    requires Shape(s) && |s.cpus| > 0 && Cur(s, 0).At? && s.free != []
    requires Exofork(s, 0, true).Returned? && (Exofork(s, 0, true).r < 0 ==> Exofork(s, 0, true).s == s)
    ensures Exofork(s, 0, true).r >= 0
  {
    assert Exofork(s, 0, true).s.free == s.free[1..];
  }

  // The parent finds its child by its id.
  lemma Finds(s: Sys, e: nat)
    requires Inv(s) && First(s, User, e) && s.envs[e].status != Free && s.envs[e].parent == s.envs[0].id
    ensures Envid2env(s, 0, s.envs[e].id, true) == At(e)
  {
    IdEncodesSlot(e, s.gens[e]);
    ResolveMeans(s, 0, s.envs[e].id, true, e);
  }

  lemma Readies(s: Sys, e: nat) returns (t: Sys)
    requires Reached(s) && Inv(s) && First(s, User, e)
    requires s.envs[e].status == NotRunnable && s.envs[e].parent == s.envs[0].id
    ensures Reached(t) && Inv(t) && First(t, User, e) && t.envs[e].status == Runnable && t.envs[e].parent == t.envs[0].id
  {
    ReadyStep(s, e);
    hide Inv, Reached, First;
    var ev := Enter(0, Set(s.envs[e].id, Runnable));
    Next(s, ev);
    t := Ends(Step(s, ev), e);
  }

  lemma ReadyStep(s: Sys, e: nat)
    requires Inv(s) && First(s, User, e) && s.envs[e].status == NotRunnable && s.envs[e].parent == s.envs[0].id
    ensures var ev := Enter(0, Set(s.envs[e].id, Runnable));
      && Enabled(s, ev) && Safe(s, ev) && First(Step(s, ev), Tail, e)
      && Step(s, ev).envs[e].status == Runnable && Step(s, ev).envs[e].parent == Step(s, ev).envs[0].id
  {
    Finds(s, e);
    hide Inv, Envid2env;
  }

  // A parent that sets its child NOT_RUNNABLE while the child runs on another CPU: the call is
  // possible and from then on the child runs although it is not RUNNING.
  lemma ChildTaken() returns (s: Sys, ev: Event)
    ensures Reached(s) && Inv(s) && Enabled(s, ev) && ev.Enter? && ev.why.Set? && !Safe(s, ev) && !Inv(Step(s, ev))
  {
    hide Inv, Reached, Safe, Enabled, First, EnvRun, Step;
    var s1 := Starts();
    var s2, e := Forks(s1);
    var s3 := Readies(s2, e);
    Second(s3, e);
    OnlyOne(s3, 1, e);
    Next(s3, Begin(1));
    s := Step(s3, Begin(1));
    ev := Enter(0, Set(s.envs[e].id, NotRunnable));
    Taken(s3, s, e);
    StepKeeps(s, ev);
  }

  lemma Second(s: Sys, e: nat)
    requires First(s, User, e) && s.envs[e].status == Runnable
    ensures Shape(s) && e < NENV && 1 < |s.cpus| && Enabled(s, Begin(1)) && Safe(s, Begin(1))
    ensures forall k :: 0 <= k < NENV && k != e ==> s.envs[k].status != Runnable
  {
  }

  lemma Taken(s: Sys, t: Sys, e: nat)
    requires First(s, User, e) && s.envs[e].status == Runnable && s.envs[e].parent == s.envs[0].id
    requires t == EnvRun(s, 1, e) && Inv(t)
    ensures Enabled(t, Enter(0, Set(t.envs[e].id, NotRunnable))) && !Safe(t, Enter(0, Set(t.envs[e].id, NotRunnable)))
  {
    IdEncodesSlot(e, t.gens[e]);
    ResolveMeans(t, 0, t.envs[e].id, true, e);
  }
}
