/**
 * The big kernel lock (kern/spinlock.c): every interleaving of the single reads and writes of
 * spin_lock and spin_unlock, with the debug checks compiled in.
 */
module Spin {

  // Where a CPU stands. Leaving and Outside are the code between the two calls and after them.
  datatype Pc =
    | Outside        // user mode; the next step enters the kernel and calls spin_lock
    | AskLocked      // holding() of spin_lock: reads lk->locked
    | AskCpu         // holding() of spin_lock: reads lk->cpu
    | Exchange       // xchg(&lk->locked, 1), repeated until it returns 0
    | Record         // lk->cpu = thiscpu
    | Inside         // holds the lock; the next step calls spin_unlock
    | CheckLocked    // holding() of spin_unlock: reads lk->locked
    | CheckCpu       // holding() of spin_unlock: reads lk->cpu
    | Clear          // lk->cpu = 0
    | Release        // xchg(&lk->locked, 0)
    | Panicked

  datatype Owner = Nobody | Cpu(c: nat)

  datatype State = State(locked: bool, owner: Owner, pc: seq<Pc>)

  function Move(s: State, c: nat, p: Pc): State
    requires c < |s.pc|
  {
    s.(pc := s.pc[c := p])
  }

  // One atomic step of CPU c.
  function Step(s: State, c: nat): (t: State)
    requires c < |s.pc|
    ensures |t.pc| == |s.pc|
  {
    match s.pc[c]
    case Outside => Move(s, c, AskLocked)
    case AskLocked => Move(s, c, if s.locked then AskCpu else Exchange)
    case AskCpu => Move(s, c, if s.owner == Cpu(c) then Panicked else Exchange)
    case Exchange => Move(s.(locked := true), c, if s.locked then Exchange else Record)
    case Record => Move(s.(owner := Cpu(c)), c, Inside)
    case Inside => Move(s, c, CheckLocked)
    case CheckLocked => Move(s, c, if s.locked then CheckCpu else Panicked)
    case CheckCpu => Move(s, c, if s.owner == Cpu(c) then Clear else Panicked)
    case Clear => Move(s.(owner := Nobody), c, Release)
    case Release => Move(s.(locked := false), c, Outside)
    case Panicked => s
  }

  function Init(n: nat): State { State(false, Nobody, seq(n, _ => Outside)) }

  // Past the exchange that took the lock and not past the one that gives it back.
  predicate Holds(p: Pc) { p in {Record, Inside, CheckLocked, CheckCpu, Clear, Release} }

  predicate Recorded(p: Pc) { p in {Inside, CheckLocked, CheckCpu, Clear} }

  // holding(lock) evaluated by CPU c.
  predicate Holding(s: State, c: nat) { s.locked && s.owner == Cpu(c) }

  predicate Inv(s: State) {
    && (s.locked <==> exists c :: 0 <= c < |s.pc| && Holds(s.pc[c]))
    && (forall c, d :: 0 <= c < d < |s.pc| ==> !(Holds(s.pc[c]) && Holds(s.pc[d])))
    && (forall c :: 0 <= c < |s.pc| ==> (s.owner == Cpu(c) <==> Recorded(s.pc[c])))
    && (forall c :: 0 <= c < |s.pc| ==> s.pc[c] != Panicked)
  }

  lemma StepKeeps(s: State, c: nat)
    requires Inv(s) && c < |s.pc|
    ensures Inv(Step(s, c))
  {
    var t := Step(s, c);
    assert forall d :: 0 <= d < |s.pc| && d != c ==> t.pc[d] == s.pc[d];
    if s.pc[c] == Release {
      assert Holds(s.pc[c]);
    } else if Holds(t.pc[c]) {
      assert t.locked;
    } else if s.locked {
      var h :| 0 <= h < |s.pc| && Holds(s.pc[h]);
      assert Holds(t.pc[h]);
    }
  }

  function Run(s: State, cs: seq<nat>): (t: State)
    requires forall i :: 0 <= i < |cs| ==> cs[i] < |s.pc|
    ensures |t.pc| == |s.pc|
    decreases |cs|
  {
    if cs == [] then s else Run(Step(s, cs[0]), cs[1..])
  }

  lemma {:induction false} RunKeeps(s: State, cs: seq<nat>)
    requires Inv(s) && forall i :: 0 <= i < |cs| ==> cs[i] < |s.pc|
    ensures Inv(Run(s, cs))
    decreases |cs|
  {
    if cs != [] {
      StepKeeps(s, cs[0]);
      RunKeeps(Step(s, cs[0]), cs[1..]);
    }
  }

  // Every interleaving from boot: one holder at most, holding() answers for exactly the CPU
  // between recording and clearing itself, and neither check panics.
  lemma MutualExclusion(n: nat, cs: seq<nat>, c: nat, d: nat)
    requires (forall i :: 0 <= i < |cs| ==> cs[i] < n) && c < n && d < n && c != d
    ensures var t := Run(Init(n), cs);
      && !(Holds(t.pc[c]) && Holds(t.pc[d]))
      && (Holding(t, c) <==> Recorded(t.pc[c]))
      && t.pc[c] != Panicked
  {
    RunKeeps(Init(n), cs);
  }

  // What the holder still has to do before the lock is free again.
  function ToGo(p: Pc): nat
    requires Holds(p)
  {
    match p case Record => 6 case Inside => 5 case CheckLocked => 4 case CheckCpu => 3 case Clear => 2 case Release => 1
  }

  // No deadlock: whoever holds the lock frees it by its own steps alone, and then a CPU at the
  // exchange takes it in one step.
  lemma {:induction false} WaiterGetsIn(s: State, h: nat, c: nat)
    requires Inv(s) && h < |s.pc| && c < |s.pc| && Holds(s.pc[h]) && s.pc[c] == Exchange
    ensures var t := Run(s, seq(ToGo(s.pc[h]), _ => h) + [c]); Holds(t.pc[c]) && t.pc[h] == Outside
    decreases ToGo(s.pc[h])
  {
    var n := ToGo(s.pc[h]);
    var cs := seq(n, _ => h) + [c];
    var t := Step(s, h);
    StepKeeps(s, h);
    if n == 1 {
      assert cs[1..] == [c];
      assert Run(t, [c]) == Step(t, c);
    } else {
      assert cs[1..] == seq(n - 1, _ => h) + [c];
      WaiterGetsIn(t, h, c);
    }
  }
}
