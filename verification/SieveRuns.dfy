/** Whole runs of the sieve: every filter's number, freedom from deadlock, termination, the result. */
module SieveRuns {
  import opened Primes
  import opened Sieve

  // ---- Runs ------------------------------------------------------------------------------

  // One process after the other makes its next call, in any order.
  predicate Possible(c: Config, s: Sys, ks: seq<nat>)
    decreases |ks|
  {
    ks == [] || (Enabled(c, s, ks[0]) && Possible(c, Step(c, s, ks[0]), ks[1..]))
  }

  function Run(c: Config, s: Sys, ks: seq<nat>): Sys
    requires Possible(c, s, ks)
    decreases |ks|
  {
    if ks == [] then s else Run(c, Step(c, s, ks[0]), ks[1..])
  }

  lemma InitInv(c: Config)
    ensures Inv(c, INIT)
  {
    assert INIT.procs[0].fds == Fds(0, MakePipe);
  }

  lemma {:induction false} RunKeeps(c: Config, s: Sys, ks: seq<nat>)
    requires Inv(c, s) && Possible(c, s, ks)
    ensures Inv(c, Run(c, s, ks))
    decreases |ks|
  {
    hide Inv, Enabled, Step;
    if ks != [] {
      StepKeeps(c, s, ks[0]);
      RunKeeps(c, Step(c, s, ks[0]), ks[1..]);
    }
  }

  // ---- The numbers the filters announce --------------------------------------------------

  // Process k has read its first number.
  predicate HasPrimo(s: Sys, k: nat)
    requires k < |s.procs|
  {
    k > 0 && (s.procs[k].pc == Fork || Stage(s.procs[k].pc) == 2 || (Stage(s.procs[k].pc) == 3 && k < |s.procs| - 1))
  }

  lemma PrimoIs(c: Config, s: Sys, k: nat)
    requires Inv(c, s) && k < |s.procs| && HasPrimo(s, k)
    ensures Stream(c.max, k - 1) != [] && s.procs[k].primo == Stream(c.max, k - 1)[0]
  {
    hide Stream, Filtered;
    assert Data(c, k, k == |s.procs| - 1, s.procs[k], Taken(s, k - 1), Sent(s, k));
  }

  // In every interleaving the k-th filter announces the k-th prime.
  lemma FilterAnnouncesPrime(c: Config, ks: seq<nat>, k: nat)
    requires Possible(c, INIT, ks) && k < |Run(c, INIT, ks).procs| && HasPrimo(Run(c, INIT, ks), k)
    ensures k - 1 < |PrimesUpTo(c.max)| && Run(c, INIT, ks).procs[k].primo == PrimesUpTo(c.max)[k - 1]
  {
    hide Inv, HasPrimo, Stream, PrimesUpTo, Possible, Run;
    InitInv(c);
    RunKeeps(c, INIT, ks);
    FiltersOnly(Run(c, INIT, ks), k);
    PrimoIs(c, Run(c, INIT, ks), k);
    KthPrime(c.max, k - 1);
  }

  lemma FiltersOnly(s: Sys, k: nat)
    requires k < |s.procs| && HasPrimo(s, k)
    ensures k > 0
  {
  }

  // ---- No deadlock -----------------------------------------------------------------------

  // A process other than a waiting filter that still has its pipe open for writing can go on, as
  // long as that pipe is empty.
  lemma WriterMoves(c: Config, s: Sys, k: nat)
    requires k < |s.procs| && k < |s.pipes| && c.capacity > 0
    requires Writes(s.procs[k].pc) && s.procs[k].pc != Loop && !Readable(s, k)
    ensures Enabled(c, s, k)
  {
  }

  lemma ReadMoves(c: Config, s: Sys, k: nat)
    requires 0 < k < |s.procs| && k - 1 < |s.pipes| && Reads(s.procs[k].pc)
    requires Readable(s, k - 1) || !Open(s, Fd(k - 1, WriteEnd))
    ensures Enabled(c, s, k)
  {
    hide Open;
  }

  // If a filter waits for input, it or a process before it can go on.
  lemma {:induction false} ReaderMoves(c: Config, s: Sys, k: nat) returns (i: nat)
    requires Inv(c, s) && c.capacity > 0 && 0 < k < |s.procs| && Reads(s.procs[k].pc)
    ensures Enabled(c, s, i)
    decreases k
  {
    hide Inv, Open, Enabled, Readable, Writes;
    LeftPipe(c, s, k);
    if Readable(s, k - 1) || !Open(s, Fd(k - 1, WriteEnd)) {
      ReadMoves(c, s, k);
      i := k;
    } else if s.procs[k - 1].pc == Loop {
      i := ReaderMoves(c, s, k - 1);
    } else {
      WriterMoves(c, s, k - 1);
      i := k - 1;
    }
  }

  lemma LeftPipe(c: Config, s: Sys, k: nat)
    requires Inv(c, s) && 0 < k < |s.procs| && Reads(s.procs[k].pc)
    ensures k - 1 < |s.pipes| && (s.procs[k - 1].pc == Loop ==> k - 1 > 0)
    ensures Open(s, Fd(k - 1, WriteEnd)) <==> Writes(s.procs[k - 1].pc)
  {
    hide Flow;
    WriterOpen(s, k);
  }

  lemma {:induction false} LastActive(s: Sys, n: nat) returns (k: nat)
    requires n <= |s.procs| && exists i :: 0 <= i < n && s.procs[i].pc != Done
    requires forall i :: n <= i < |s.procs| ==> s.procs[i].pc == Done
    ensures k < |s.procs| && s.procs[k].pc != Done && forall i :: k < i < |s.procs| ==> s.procs[i].pc == Done
  {
    if s.procs[n - 1].pc != Done {
      k := n - 1;
    } else {
      k := LastActive(s, n - 1);
    }
  }

  predicate AllDone(s: Sys) { forall k :: 0 <= k < |s.procs| ==> s.procs[k].pc == Done }

  lemma DoneReadAll(c: Config, s: Sys, k: nat)
    requires Inv(c, s) && k + 1 < |s.procs| && s.procs[k + 1].pc == Done
    ensures k < |s.pipes| && |Stream(c.max, k)| <= |s.pipes[k].sent|
  {
    hide Stream;
    assert Data(c, k + 1, k + 1 == |s.procs| - 1, s.procs[k + 1], Taken(s, k), Sent(s, k + 1));
  }

  // A process whose reader has ended has nothing left to write.
  lemma ReaderEnded(c: Config, s: Sys, k: nat)
    requires Inv(c, s) && k + 1 < |s.procs| && s.procs[k + 1].pc == Done
    ensures !s.procs[k].pc.Write? && (s.procs[k].pc.Send? ==> s.procs[k].pc.i > c.max)
  {
    hide Inv, Chain, Stream;
    DoneReadAll(c, s, k);
    if s.procs[k].pc.Write? || (s.procs[k].pc.Send? && s.procs[k].pc.i <= c.max) {
      NoSigpipe(c, s, k);
    }
  }

  // Where a process may stand that has not ended.
  lemma ActivePlace(c: Config, s: Sys, k: nat)
    requires Inv(c, s) && k < |s.procs|
    ensures s.procs[k].pc != Killed && Placed(k, s.procs[k].pc) && (AfterFork(s.procs[k].pc) ==> k + 1 < |s.procs|)
  {
    hide Flow, Descriptors;
  }

  // The last process that has not ended can go on, unless it is a filter that waits for input.
  lemma LastMoves(c: Config, s: Sys, k: nat)
    requires k < |s.procs| && s.procs[k].pc != Done && s.procs[k].pc != Killed && !Reads(s.procs[k].pc)
    requires AfterFork(s.procs[k].pc) ==> k + 1 < |s.procs| && s.procs[k + 1].pc == Done
    requires !s.procs[k].pc.Write? && (s.procs[k].pc.Send? ==> s.procs[k].pc.i > c.max)
    ensures Enabled(c, s, k)
  {
  }

  // Unless all have ended, some process can make its next call.
  lemma NoDeadlock(c: Config, s: Sys) returns (i: nat)
    requires Inv(c, s) && c.capacity > 0 && !AllDone(s)
    ensures Enabled(c, s, i)
  {
    hide Inv, Enabled;
    var k := LastActive(s, |s.procs|);
    ActivePlace(c, s, k);
    if AfterFork(s.procs[k].pc) {
      ReaderEnded(c, s, k);
    }
    if Reads(s.procs[k].pc) {
      i := ReaderMoves(c, s, k);
    } else {
      LastMoves(c, s, k);
      i := k;
    }
  }

  // ---- Termination -----------------------------------------------------------------------

  function Rank(pc: Pc): nat {
    match pc
    case Inherited => 12
    case CloseWrite => 11
    case MakePipe => 10
    case First => 9
    case Fork => 8
    case CloseRead => 7
    case Write(_) => 6
    case Send(_) => 5
    case Loop => 5
    case CloseLeft => 4
    case CloseRight => 3
    case Wait => 2
    case AtEof(n) => if n < 4 then 4 - n else 0
    case Done => 0
    case Killed => 0
  }

  // The calls process k has yet to make at most; for one not yet created, all it may ever make.
  function ToDo(c: Config, s: Sys, k: nat): int {
    if k >= |s.procs| then (if k == 0 then 0 else 12 + 2 * |Stream(c.max, k - 1)|)
    else if k == 0 then Rank(s.procs[0].pc) + 2 * (|Stream(c.max, 0)| - |Sent(s, 0)|)
    else Rank(s.procs[k].pc) + 2 * (|Stream(c.max, k - 1)| - Taken(s, k - 1))
  }

  function Total(c: Config, s: Sys, n: nat): int {
    if n == 0 then 0 else Total(c, s, n - 1) + ToDo(c, s, n - 1)
  }

  function Measure(c: Config, s: Sys): int { Total(c, s, |Stream(c.max, 0)| + 2) }

  lemma ToDoNonNegative(c: Config, s: Sys, k: nat)
    requires Inv(c, s)
    ensures ToDo(c, s, k) >= 0
  {
    if k < |s.procs| {
      hide Stream;
      assert Data(c, k, k == |s.procs| - 1, s.procs[k], Taken(s, k - 1), Sent(s, k));
      if k == 0 && 0 < |s.pipes| {
        SentPrefix(c, s, 0);
      }
    }
  }

  lemma NextRank(c: Config, s: Sys, k: nat)
    requires Enabled(c, s, k) && Placed(k, s.procs[k].pc) && Next(c, s, k).pc != Killed
    requires if s.procs[k].pc == MakePipe then |s.pipes| == k else Stage(s.procs[k].pc) > 0 ==> k < |s.pipes|
    ensures var t := Sys(s.procs, Pipes(c, s, k));
      Rank(Next(c, s, k).pc) - (if k == 0 then 2 * |Sent(t, 0)| else 2 * Taken(t, k - 1)) <
      Rank(s.procs[k].pc) - (if k == 0 then 2 * |Sent(s, 0)| else 2 * Taken(s, k - 1))
  {
    if k > 0 {
      PipesFrame(c, s, k, k - 1);
    }
  }

  lemma CallerToDo(c: Config, s: Sys, k: nat)
    requires Inv(c, s) && Enabled(c, s, k)
    ensures ToDo(c, Step(c, s, k), k) < ToDo(c, s, k)
  {
    PlaceOf(c, s, k);
    hide Inv, Stream, Open, Chain, Descriptors, Flow, Next, Pipes, Placed, Rank;
    NeverKilled(c, s, k);
    NextRank(c, s, k);
  }

  lemma OthersToDo(c: Config, s: Sys, k: nat, j: nat)
    requires Inv(c, s) && Enabled(c, s, k) && j != k
    ensures ToDo(c, Step(c, s, k), j) <= ToDo(c, s, j)
  {
    PlaceOf(c, s, k);
    hide Stream, Open, Chain, Descriptors, Flow, Next, Pipes, Rank, Placed, Stage;
    PipesFrame(c, s, k, j - 1);
    PipesFrame(c, s, k, j);
    if j == |s.procs| && s.procs[k].pc == Fork {
      NewToDo(c, s, k);
    }
  }

  // A process just created has at most the calls to make that were set aside for it.
  lemma NewToDo(c: Config, s: Sys, k: nat)
    requires Chain(s) && Flow(c, s) && Enabled(c, s, k) && s.procs[k].pc == Fork
    ensures k + 1 == |s.procs| && ToDo(c, Step(c, s, k), k + 1) <= ToDo(c, s, k + 1)
  {
    hide Stream, Data;
  }

  lemma {:induction false} TotalDrops(c: Config, s: Sys, k: nat, n: nat)
    requires Inv(c, s) && Enabled(c, s, k)
    ensures Total(c, Step(c, s, k), n) <= Total(c, s, n) - (if k < n then 1 else 0)
  {
    hide Inv, Enabled, Step, ToDo;
    if n > 0 {
      TotalDrops(c, s, k, n - 1);
      if k == n - 1 {
        CallerToDo(c, s, k);
      } else {
        OthersToDo(c, s, k, n - 1);
      }
    }
  }

  // There are never more processes than numbers generated and two.
  lemma ProcsBound(c: Config, s: Sys)
    requires Inv(c, s)
    ensures |s.procs| <= |Stream(c.max, 0)| + 2
  {
    hide Inv, Stream, HasPrimo;
    var k := |s.procs| - 2;
    if k > 0 {
      ParentHasPrimo(c, s, k);
      PrimoIs(c, s, k);
      StreamShrinks(c.max, k - 1);
    }
  }

  lemma ParentHasPrimo(c: Config, s: Sys, k: nat)
    requires Inv(c, s) && 0 < k < |s.procs| - 1
    ensures HasPrimo(s, k)
  {
    hide Flow, Descriptors;
  }

  lemma {:induction false} TotalNonNegative(c: Config, s: Sys, n: nat)
    requires Inv(c, s)
    ensures Total(c, s, n) >= 0
  {
    hide Inv, ToDo;
    if n > 0 {
      TotalNonNegative(c, s, n - 1);
      ToDoNonNegative(c, s, n - 1);
    }
  }

  // Every call brings the end nearer, so no run is longer than the measure of its first state.
  lemma {:induction false} RunLength(c: Config, s: Sys, ks: seq<nat>)
    requires Inv(c, s) && Possible(c, s, ks)
    ensures |ks| + Measure(c, Run(c, s, ks)) <= Measure(c, s)
    decreases |ks|
  {
    if ks != [] {
      ProcsBound(c, s);
      hide Inv, Step, Stream;
      StepKeeps(c, s, ks[0]);
      TotalDrops(c, s, ks[0], |Stream(c.max, 0)| + 2);
      RunLength(c, Step(c, s, ks[0]), ks[1..]);
    }
  }

  lemma EveryRunEnds(c: Config, ks: seq<nat>)
    requires Possible(c, INIT, ks)
    ensures |ks| <= Measure(c, INIT)
  {
    InitInv(c);
    RunLength(c, INIT, ks);
    RunKeeps(c, INIT, ks);
    TotalNonNegative(c, Run(c, INIT, ks), |Stream(c.max, 0)| + 2);
  }

  // ---- The result ------------------------------------------------------------------------

  // A run that cannot be continued has ended everywhere at end of file: all processes are done,
  // every pipe was read to its end, and the filters but the last announced exactly the primes.
  lemma FinalState(c: Config, ks: seq<nat>)
    requires c.capacity > 0 && Possible(c, INIT, ks)
    requires forall k :: !Enabled(c, Run(c, INIT, ks), k)
    ensures var t := Run(c, INIT, ks); var n := |PrimesUpTo(c.max)|;
      && AllDone(t) && |t.procs| == n + 2
      && (forall k :: 1 <= k <= n ==> t.procs[k].primo == PrimesUpTo(c.max)[k - 1])
      && (forall j :: 0 <= j <= n ==> j < |t.pipes| && t.pipes[j] == Pipe(Stream(c.max, j), |Stream(c.max, j)|))
  {
    InitInv(c);
    RunKeeps(c, INIT, ks);
    var t := Run(c, INIT, ks);
    if !AllDone(t) {
      var i := NoDeadlock(c, t);
    }
    DoneResult(c, t);
  }

  lemma DoneData(c: Config, t: Sys, k: nat)
    requires Inv(c, t) && AllDone(t) && k < |t.procs|
    ensures |t.procs| >= 2 && |t.pipes| == |t.procs| && Sent(t, k) == Stream(c.max, k)
    ensures k > 0 ==> Taken(t, k - 1) == |Stream(c.max, k - 1)|
    ensures 0 < k < |t.procs| - 1 ==> Stream(c.max, k - 1) != [] && t.procs[k].primo == Stream(c.max, k - 1)[0]
    ensures 0 < k == |t.procs| - 1 ==> Stream(c.max, k - 1) == []
  {
    hide Stream;
    assert Data(c, 0, 0 == |t.procs| - 1, t.procs[0], Taken(t, -1), Sent(t, 0));
    assert Data(c, k, k == |t.procs| - 1, t.procs[k], Taken(t, k - 1), Sent(t, k));
  }

  lemma DoneCount(c: Config, t: Sys)
    requires Inv(c, t) && AllDone(t) && |t.procs| > 0
    ensures |t.procs| == |PrimesUpTo(c.max)| + 2
  {
    hide Inv, Stream, AllDone;
    DoneData(c, t, 0);
    var n := |t.procs| - 2;
    DoneData(c, t, n + 1);
    forall j | 0 <= j < n
      ensures Stream(c.max, j) != []
    {
      DoneData(c, t, j + 1);
    }
    KeptArePrimes(c.max, n);
  }

  lemma DoneResult(c: Config, t: Sys)
    requires Inv(c, t) && AllDone(t)
    ensures var n := |PrimesUpTo(c.max)|;
      && |t.procs| == n + 2
      && (forall k :: 1 <= k <= n ==> t.procs[k].primo == PrimesUpTo(c.max)[k - 1])
      && (forall j :: 0 <= j <= n ==> j < |t.pipes| && t.pipes[j] == Pipe(Stream(c.max, j), |Stream(c.max, j)|))
  {
    assert |t.procs| > 0;
    hide Inv, Chain, Stream, AllDone;
    DoneCount(c, t);
    DoneData(c, t, 0);
    var n := |t.procs| - 2;
    forall k | 1 <= k <= n
      ensures t.procs[k].primo == PrimesUpTo(c.max)[k - 1]
    {
      DoneData(c, t, k);
      KthPrime(c.max, k - 1);
    }
    forall j | 0 <= j <= n
      ensures t.pipes[j] == Pipe(Stream(c.max, j), |Stream(c.max, j)|)
    {
      DoneData(c, t, j);
      DoneData(c, t, j + 1);
    }
  }
}
