/**
 * The chain of processes of fork/primes.c: every interleaving of their system calls over bounded
 * FIFO pipes, with the descriptors each process has open.
 */
module Sieve {
  import opened Primes

  // ---- State -----------------------------------------------------------------------------

  datatype End = ReadEnd | WriteEnd
  datatype Fd = Fd(pipe: int, end: End)

  // The next system call of a process. Process 0 is the generator, process k the k-th filter.
  datatype Pc =
    | Inherited          // close the parent's left pipe
    | CloseWrite         // close(pipe_izq[WRITE])
    | MakePipe           // pipe(pipe_der), or the generator's pipe
    | First              // the read that yields primo or end of file
    | AtEof(n: nat)      // the n-th of the four closes after it
    | Fork
    | CloseRead          // close(pipe_der[READ])
    | Send(i: int)       // the generator's loop
    | Loop               // read(pipe_izq[READ])
    | Write(value: int)  // write(pipe_der[WRITE])
    | CloseLeft
    | CloseRight
    | Wait
    | Done
    | Killed             // by SIGPIPE

  datatype Proc = Proc(pc: Pc, primo: int, fds: set<Fd>)

  // Everything ever written to a pipe, and how much of it has been read.
  datatype Pipe = Pipe(sent: seq<int>, taken: nat)

  datatype Sys = Sys(procs: seq<Proc>, pipes: seq<Pipe>)

  // The largest number generated and the capacity of every pipe, in numbers.
  datatype Config = Config(max: int, capacity: nat)

  const INIT := Sys([Proc(MakePipe, 0, {})], [])

  predicate Open(s: Sys, fd: Fd) { exists k :: 0 <= k < |s.procs| && fd in s.procs[k].fds }

  // ---- Steps -----------------------------------------------------------------------------

  predicate Readable(s: Sys, j: int) { 0 <= j < |s.pipes| && s.pipes[j].taken < |s.pipes[j].sent| }

  predicate Eof(s: Sys, j: int) {
    0 <= j < |s.pipes| && |s.pipes[j].sent| <= s.pipes[j].taken && !Open(s, Fd(j, WriteEnd))
  }

  // A write returns or kills; with readers left it blocks while the pipe is full.
  predicate Writable(c: Config, s: Sys, j: int) {
    0 <= j < |s.pipes| && (|s.pipes[j].sent| < s.pipes[j].taken + c.capacity || !Open(s, Fd(j, ReadEnd)))
  }

  predicate Enabled(c: Config, s: Sys, k: nat) {
    && k < |s.procs|
    && match s.procs[k].pc
       case First => Readable(s, k - 1) || Eof(s, k - 1)
       case Loop => Readable(s, k - 1) || Eof(s, k - 1)
       case Write(_) => Writable(c, s, k)
       case Send(i) => i <= c.max ==> Writable(c, s, k)
       case Wait => k + 1 < |s.procs| && s.procs[k + 1].pc == Done
       case Done => false
       case Killed => false
       case _ => true
  }

  function Close(p: Proc, fds: set<Fd>, pc: Pc): Proc { p.(pc := pc, fds := p.fds - fds) }

  // A write on pipe k by process k, which then goes on at pc.
  function Written(s: Sys, k: nat, p: Proc, pc: Pc): Proc {
    if Open(s, Fd(k, ReadEnd)) then p.(pc := pc) else Proc(Killed, p.primo, {})
  }

  // The process that made the call, after it.
  function Next(c: Config, s: Sys, k: nat): Proc
    requires Enabled(c, s, k)
  {
    var p := s.procs[k];
    match p.pc
    case Inherited => Close(p, {Fd(k - 2, ReadEnd)}, CloseWrite)
    case CloseWrite => Close(p, {Fd(k - 1, WriteEnd)}, MakePipe)
    case MakePipe =>
      var j := |s.pipes|;
      Proc(if k == 0 then Fork else First, p.primo, p.fds + {Fd(j, ReadEnd), Fd(j, WriteEnd)})
    case First =>
      if Readable(s, k - 1) then p.(primo := s.pipes[k - 1].sent[s.pipes[k - 1].taken], pc := Fork) else p.(pc := AtEof(0))
    case AtEof(n) =>
      var fd := if n == 0 then Fd(k - 1, ReadEnd) else if n == 1 then Fd(k - 1, WriteEnd)
                else Fd(k, if n == 2 then ReadEnd else WriteEnd);
      Close(p, {fd}, if n < 3 then AtEof(n + 1) else Done)
    case Fork => p.(pc := CloseRead)
    case CloseRead => Close(p, {Fd(k, ReadEnd)}, if k == 0 then Send(2) else Loop)
    case Send(i) => if i <= c.max then Written(s, k, p, Send(i + 1)) else p.(pc := CloseRight)
    case Loop =>
      if Readable(s, k - 1) then
        var value := s.pipes[k - 1].sent[s.pipes[k - 1].taken];
        p.(pc := if p.primo != 0 && value % p.primo != 0 then Write(value) else Loop)
      else p.(pc := CloseLeft)
    case Write(value) => Written(s, k, p, Loop)
    case CloseLeft => Close(p, {Fd(k - 1, ReadEnd)}, CloseRight)
    case CloseRight => Close(p, {Fd(k, WriteEnd)}, Wait)
    case Wait => p.(pc := Done, fds := {})
  }

  // The process it created, if any: a copy that does not go back to the parent's code.
  function Child(s: Sys, k: nat): seq<Proc>
    requires k < |s.procs|
  {
    var p := s.procs[k];
    if p.pc == Fork then [Proc(if k == 0 then CloseWrite else Inherited, p.primo, p.fds)] else []
  }

  function Push(s: Sys, k: nat, v: int): seq<Pipe>
    requires k < |s.pipes|
  {
    if Open(s, Fd(k, ReadEnd)) then s.pipes[k := s.pipes[k].(sent := s.pipes[k].sent + [v])] else s.pipes
  }

  function Pull(s: Sys, j: int): seq<Pipe> {
    if Readable(s, j) then s.pipes[j := s.pipes[j].(taken := s.pipes[j].taken + 1)] else s.pipes
  }

  function Pipes(c: Config, s: Sys, k: nat): seq<Pipe>
    requires Enabled(c, s, k)
  {
    match s.procs[k].pc
    case MakePipe => s.pipes + [Pipe([], 0)]
    case First => Pull(s, k - 1)
    case Loop => Pull(s, k - 1)
    case Send(i) => if i <= c.max then Push(s, k, i) else s.pipes
    case Write(v) => Push(s, k, v)
    case _ => s.pipes
  }

  function Step(c: Config, s: Sys, k: nat): Sys
    requires Enabled(c, s, k)
  {
    Sys(s.procs[k := Next(c, s, k)] + Child(s, k), Pipes(c, s, k))
  }

  // ---- Where processes may stand ---------------------------------------------------------

  predicate AfterFork(pc: Pc) {
    pc == CloseRead || pc.Send? || pc == Loop || pc.Write? || pc == CloseLeft || pc == CloseRight || pc == Wait
  }

  // 0: before it made its pipe; 1: before it forked; 2: after; 3: ended; 4: killed.
  function Stage(pc: Pc): nat {
    if pc == Inherited || pc == CloseWrite || pc == MakePipe then 0
    else if pc == First || pc.AtEof? || pc == Fork then 1
    else if AfterFork(pc) then 2
    else if pc == Done then 3 else 4
  }

  // The last process of the chain has not forked; all others have.
  predicate Chain(s: Sys) {
    var n := |s.procs| - 1;
    && n >= 0
    && (forall k :: 0 <= k < n ==> Stage(s.procs[k].pc) == 2 || Stage(s.procs[k].pc) == 3)
    && (var stage := Stage(s.procs[n].pc);
        && (stage == 0 || stage == 1 || stage == 3)
        && |s.pipes| == n + (if stage == 0 then 0 else 1))
    && (forall k :: 0 <= k <= n ==> Placed(k, s.procs[k].pc))
  }

  // Some calls belong to the generator alone, some to the filters.
  predicate Placed(k: nat, pc: Pc) {
    && (pc.Send? ==> k == 0)
    && (pc.AtEof? ==> pc.n < 4)
    && (pc == Inherited ==> k > 1)
    && (pc == CloseWrite || pc == First || pc.AtEof? || pc == Loop || pc.Write? || pc == CloseLeft ==> k > 0)
  }

  // The descriptors process k has open when it stands at pc.
  function Fds(k: nat, pc: Pc): set<Fd> {
    var left := if k == 0 then {} else {Fd(k - 1, ReadEnd)};
    match pc
    case Inherited => {Fd(k - 2, ReadEnd), Fd(k - 1, ReadEnd), Fd(k - 1, WriteEnd)}
    case CloseWrite => {Fd(k - 1, ReadEnd), Fd(k - 1, WriteEnd)}
    case MakePipe => left
    case First => left + {Fd(k, ReadEnd), Fd(k, WriteEnd)}
    case AtEof(n) =>
      (if n == 0 then left else {}) + (if n < 3 then {Fd(k, ReadEnd)} else {}) + {Fd(k, WriteEnd)}
    case Fork => left + {Fd(k, ReadEnd), Fd(k, WriteEnd)}
    case CloseRead => left + {Fd(k, ReadEnd), Fd(k, WriteEnd)}
    case Send(_) => left + {Fd(k, WriteEnd)}
    case Loop => left + {Fd(k, WriteEnd)}
    case Write(_) => left + {Fd(k, WriteEnd)}
    case CloseLeft => left + {Fd(k, WriteEnd)}
    case CloseRight => {Fd(k, WriteEnd)}
    case Wait => {}
    case Done => {}
    case Killed => {}
  }

  predicate Descriptors(s: Sys) {
    forall k :: 0 <= k < |s.procs| ==> s.procs[k].fds == Fds(k, s.procs[k].pc)
  }

  // ---- What has gone through the pipes ---------------------------------------------------

  function Sent(s: Sys, j: nat): seq<int> { if j < |s.pipes| then s.pipes[j].sent else [] }
  function Taken(s: Sys, j: int): nat { if 0 <= j < |s.pipes| then s.pipes[j].taken else 0 }

  // Process k has read the first t numbers of its stream and written what it should of them. A
  // process that ends as the last of the chain met an empty stream.
  predicate Data(c: Config, k: nat, last: bool, p: Proc, t: nat, sent: seq<int>) {
    if k == 0 then
      match p.pc
      case Send(i) => 2 <= i && sent == Range(2, i) && (i <= c.max + 1 || i == 2)
      case CloseRight => sent == Stream(c.max, 0)
      case Wait => sent == Stream(c.max, 0)
      case Done => sent == Stream(c.max, 0) && !last
      case _ => sent == []
    else
      var stream := Stream(c.max, k - 1);
      && t <= |stream|
      && (AfterFork(p.pc) || p.pc == Fork || (p.pc == Done && !last) ==> t >= 1 && p.primo == stream[0])
      && match p.pc
         case Fork => t == 1 && sent == []
         case CloseRead => t == 1 && sent == []
         case Loop => sent == Filtered(c, k, t)
         case Write(v) => sent + [v] == Filtered(c, k, t)
         case CloseLeft => t == |stream| && sent == Stream(c.max, k)
         case CloseRight => t == |stream| && sent == Stream(c.max, k)
         case Wait => t == |stream| && sent == Stream(c.max, k)
         case Done => t == |stream| && sent == Stream(c.max, k) && (last ==> t == 0)
         case AtEof(_) => t == |stream| == 0 && sent == []
         case _ => t == 0 && sent == []
  }

  // What filter k passes on of the first t numbers it reads.
  function Filtered(c: Config, k: nat, t: nat): (r: seq<int>)
    requires k > 0 && 1 <= t <= |Stream(c.max, k - 1)|
  {
    var stream := Stream(c.max, k - 1);
    assert stream[0] in stream;
    Sift(stream[0], stream[1..t])
  }

  predicate Flow(c: Config, s: Sys) {
    && (forall k :: 0 <= k < |s.procs| ==> Data(c, k, k == |s.procs| - 1, s.procs[k], Taken(s, k - 1), Sent(s, k)))
    && (forall j :: 0 <= j < |s.pipes| ==> s.pipes[j].taken <= |s.pipes[j].sent|)
  }

  predicate Inv(c: Config, s: Sys) { Chain(s) && Descriptors(s) && Flow(c, s) }

  lemma FilteredPrefix(c: Config, k: nat, t: nat)
    requires k > 0 && 1 <= t <= |Stream(c.max, k - 1)|
    ensures Filtered(c, k, t) <= Stream(c.max, k)
    ensures t == |Stream(c.max, k - 1)| ==> Filtered(c, k, t) == Stream(c.max, k)
    ensures t == 1 ==> Filtered(c, k, t) == []
  {
    var stream := Stream(c.max, k - 1);
    assert stream[0] in stream;
    assert stream[1..][..t - 1] == stream[1..t];
    SiftPrefix(stream[0], stream[1..], t - 1);
    assert t == |stream| ==> stream[1..t] == stream[1..];
  }

  lemma FilteredNext(c: Config, k: nat, t: nat)
    requires k > 0 && 1 <= t < |Stream(c.max, k - 1)|
    ensures var stream := Stream(c.max, k - 1);
      stream[0] != 0 &&
      Filtered(c, k, t + 1) == if stream[t] % stream[0] != 0 then Filtered(c, k, t) + [stream[t]] else Filtered(c, k, t)
  {
    var stream := Stream(c.max, k - 1);
    assert stream[0] in stream;
    assert stream[1..][..t - 1] == stream[1..t] && stream[1..][..t] == stream[1..t + 1];
    SiftNext(stream[0], stream[1..], t - 1);
  }

  // Every pipe has carried a prefix of its stream.
  lemma SentPrefix(c: Config, s: Sys, j: nat)
    requires Flow(c, s) && j < |s.pipes| && j < |s.procs|
    ensures s.pipes[j].sent <= Stream(c.max, j)
  {
    var p := s.procs[j];
    assert Data(c, j, j == |s.procs| - 1, p, Taken(s, j - 1), Sent(s, j));
    if j == 0 {
    } else if p.pc == Loop || p.pc.Write? {
      FilteredPrefix(c, j, Taken(s, j - 1));
    }
  }

  // A filter reads the next number of its stream.
  lemma ReadsStream(c: Config, s: Sys, k: nat)
    requires Chain(s) && Flow(c, s) && 0 < k < |s.procs| && Readable(s, k - 1)
    ensures var t := Taken(s, k - 1); t < |Stream(c.max, k - 1)| && s.pipes[k - 1].sent[t] == Stream(c.max, k - 1)[t]
  {
    SentPrefix(c, s, k - 1);
  }

  // ---- Who has an end of a pipe open -----------------------------------------------------

  predicate Writes(pc: Pc) {
    pc == CloseRead || pc.Send? || pc == Loop || pc.Write? || pc == CloseLeft || pc == CloseRight
  }

  // Once the reader has closed its own copy, the write end is open exactly as long as the writer is
  // not past closing it.
  lemma WriterOpen(s: Sys, k: nat)
    requires Chain(s) && Descriptors(s) && 0 < k < |s.procs|
    requires s.procs[k].pc == First || s.procs[k].pc == Loop
    ensures Open(s, Fd(k - 1, WriteEnd)) <==> Writes(s.procs[k - 1].pc)
  {
    var fd := Fd(k - 1, WriteEnd);
    if Writes(s.procs[k - 1].pc) {
      assert fd in s.procs[k - 1].fds;
    }
    forall i | 0 <= i < |s.procs| && fd in s.procs[i].fds
      ensures i == k - 1
    {
      assert s.procs[i].fds == Fds(i, s.procs[i].pc);
    }
  }

  // So end of file means the whole stream has been read.
  lemma EofMeansAll(c: Config, s: Sys, k: nat)
    requires Inv(c, s) && 0 < k < |s.procs| && (s.procs[k].pc == First || s.procs[k].pc == Loop) && Eof(s, k - 1)
    ensures Taken(s, k - 1) == |Stream(c.max, k - 1)|
  {
    hide Stream, Filtered;
    WriterOpen(s, k);
    assert Data(c, k - 1, false, s.procs[k - 1], Taken(s, k - 2), Sent(s, k - 1));
  }

  // A process that still has something to write has not written its whole stream.
  lemma NotAllSent(c: Config, s: Sys, k: nat)
    requires Flow(c, s) && k < |s.procs| && k < |s.pipes| && Placed(k, s.procs[k].pc)
    requires s.procs[k].pc.Write? || (s.procs[k].pc.Send? && s.procs[k].pc.i <= c.max)
    ensures |s.pipes[k].sent| < |Stream(c.max, k)|
  {
    hide Stream;
    assert Data(c, k, k == |s.procs| - 1, s.procs[k], Taken(s, k - 1), Sent(s, k));
    if k > 0 {
      FilteredPrefix(c, k, Taken(s, k - 1));
    } else {
      WholeRange(c.max);
    }
  }

  lemma WholeRange(max: int)
    ensures Stream(max, 0) == Range(2, max + 1)
  {
  }

  // A process that has not read its whole stream has the read end open.
  lemma ReaderOpen(c: Config, s: Sys, k: nat)
    requires Flow(c, s) && Descriptors(s) && Chain(s) && k + 1 < |s.procs| && k < |s.pipes|
    requires |s.pipes[k].sent| < |Stream(c.max, k)|
    ensures Open(s, Fd(k, ReadEnd))
  {
    hide Stream, Filtered;
    var q := s.procs[k + 1];
    assert Data(c, k + 1, k + 1 == |s.procs| - 1, q, Taken(s, k), Sent(s, k + 1));
    assert q.fds == Fds(k + 1, q.pc);
    assert Fd(k, ReadEnd) in q.fds;
  }

  lemma Forked(s: Sys, k: nat)
    requires Chain(s) && k < |s.procs| && AfterFork(s.procs[k].pc)
    ensures k + 1 < |s.procs| && k < |s.pipes| && Placed(k, s.procs[k].pc)
  {
  }

  // So a write never meets a pipe without readers.
  lemma NoSigpipe(c: Config, s: Sys, k: nat)
    requires Inv(c, s) && k < |s.procs|
    requires s.procs[k].pc.Write? || (s.procs[k].pc.Send? && s.procs[k].pc.i <= c.max)
    ensures k + 1 < |s.procs| && k < |s.pipes| && Open(s, Fd(k, ReadEnd))
    ensures |s.pipes[k].sent| < |Stream(c.max, k)|
  {
    hide Flow, Descriptors, Chain, Data, Open, Placed, Stream;
    Forked(s, k);
    NotAllSent(c, s, k);
    ReaderOpen(c, s, k);
  }

  // ---- Every step keeps the invariant ----------------------------------------------------

  lemma NeverKilled(c: Config, s: Sys, k: nat)
    requires Inv(c, s) && Enabled(c, s, k)
    ensures Next(c, s, k).pc != Killed
  {
    if s.procs[k].pc.Write? || (s.procs[k].pc.Send? && s.procs[k].pc.i <= c.max) {
      NoSigpipe(c, s, k);
    }
  }

  // Where a call leads process k, and what else it creates.
  predicate Leads(s: Sys, k: nat, q: Proc, child: seq<Proc>, more: int)
    requires k < |s.procs|
  {
    && Placed(k, q.pc)
    && match Stage(s.procs[k].pc)
       case 0 => child == [] && ((Stage(q.pc) == 0 && more == 0) || (Stage(q.pc) == 1 && more == 1))
       case 1 => more == 0 &&
         ((child == [] && (Stage(q.pc) == 1 || Stage(q.pc) == 3)) ||
          (|child| == 1 && Stage(child[0].pc) == 0 && Placed(k + 1, child[0].pc) && Stage(q.pc) == 2))
       case 2 => child == [] && more == 0 && (Stage(q.pc) == 2 || Stage(q.pc) == 3)
       case _ => false
  }

  lemma CallLeads(c: Config, s: Sys, k: nat)
    requires Enabled(c, s, k) && Placed(k, s.procs[k].pc) && Next(c, s, k).pc != Killed
    ensures Leads(s, k, Next(c, s, k), Child(s, k), |Pipes(c, s, k)| - |s.pipes|)
  {
  }

  lemma ChainAfter(s: Sys, t: Sys, k: nat, q: Proc, child: seq<Proc>)
    requires Chain(s) && k < |s.procs| && Leads(s, k, q, child, |t.pipes| - |s.pipes|)
    requires t.procs == s.procs[k := q] + child
    ensures Chain(t)
  {
    hide Stage, Placed;
  }

  lemma ChainKeeps(c: Config, s: Sys, k: nat)
    requires Inv(c, s) && Enabled(c, s, k)
    ensures Chain(Step(c, s, k))
  {
    NeverKilled(c, s, k);
    hide Flow, Descriptors, Leads, Next, Child, Pipes;
    CallLeads(c, s, k);
    ChainAfter(s, Step(c, s, k), k, Next(c, s, k), Child(s, k));
  }

  lemma NextFds(c: Config, s: Sys, k: nat)
    requires Enabled(c, s, k) && Placed(k, s.procs[k].pc) && Next(c, s, k).pc != Killed
    requires s.procs[k].fds == Fds(k, s.procs[k].pc) && (s.procs[k].pc == MakePipe ==> |s.pipes| == k)
    ensures Next(c, s, k).fds == Fds(k, Next(c, s, k).pc)
  {
  }

  lemma ChildFds(s: Sys, k: nat)
    requires k < |s.procs| && s.procs[k].fds == Fds(k, s.procs[k].pc)
    ensures |Child(s, k)| <= 1 && forall p :: p in Child(s, k) ==> p.fds == Fds(k + 1, p.pc)
    ensures Child(s, k) != [] ==> s.procs[k].pc == Fork
  {
  }

  lemma OwnFds(c: Config, s: Sys, k: nat)
    requires Inv(c, s) && Enabled(c, s, k)
    ensures Next(c, s, k).fds == Fds(k, Next(c, s, k).pc)
    ensures |Child(s, k)| <= 1 && forall p :: p in Child(s, k) ==> p.fds == Fds(k + 1, p.pc)
    ensures Child(s, k) != [] ==> k == |s.procs| - 1
  {
    NeverKilled(c, s, k);
    NextFds(c, s, k);
    ChildFds(s, k);
  }

  lemma DescriptorsKeep(c: Config, s: Sys, k: nat)
    requires Inv(c, s) && Enabled(c, s, k) && Descriptors(s) && k < |s.procs|
    ensures Descriptors(Step(c, s, k))
  {
    hide Inv, Enabled, Next, Pipes, Fds, Child;
    OwnFds(c, s, k);
  }

  // A call touches what process k has written and what it has read, nothing else.
  lemma PipesFrame(c: Config, s: Sys, k: nat, j: int)
    requires Enabled(c, s, k) && (s.procs[k].pc == MakePipe ==> |s.pipes| == k)
    ensures var t := Sys(s.procs, Pipes(c, s, k));
      && (j != k - 1 ==> Taken(t, j) == Taken(s, j))
      && (0 <= j != k ==> Sent(t, j) == Sent(s, j))
  {
  }

  lemma CountsKeep(c: Config, s: Sys, k: nat)
    requires Enabled(c, s, k) && forall j :: 0 <= j < |s.pipes| ==> s.pipes[j].taken <= |s.pipes[j].sent|
    ensures forall j :: 0 <= j < |Pipes(c, s, k)| ==> Pipes(c, s, k)[j].taken <= |Pipes(c, s, k)[j].sent|
  {
  }

  lemma GeneratorData(c: Config, s: Sys, last: bool)
    requires Enabled(c, s, 0) && Placed(0, s.procs[0].pc) && Next(c, s, 0).pc != Killed
    requires Data(c, 0, last, s.procs[0], 0, Sent(s, 0))
    requires if s.procs[0].pc == MakePipe then |s.pipes| == 0 else 0 < |s.pipes|
    requires last <==> Stage(s.procs[0].pc) < 2
    ensures var t := Sys(s.procs, Pipes(c, s, 0));
      Data(c, 0, last && s.procs[0].pc != Fork, Next(c, s, 0), 0, Sent(t, 0))
  {
    WholeRange(c.max);
    hide Stream, Filtered, Sift;
  }

  lemma StreamAfterEmpty(max: int, k: nat)
    requires k > 0 && Stream(max, k - 1) == []
    ensures Stream(max, k) == []
  {
  }

  lemma ReadData(c: Config, s: Sys, k: nat, last: bool)
    requires k > 0 && Enabled(c, s, k) && Reads(s.procs[k].pc) && k < |s.pipes|
    requires Data(c, k, last, s.procs[k], Taken(s, k - 1), Sent(s, k))
    requires last <==> Stage(s.procs[k].pc) < 2
    requires Readable(s, k - 1) ==>
      var t := Taken(s, k - 1); t < |Stream(c.max, k - 1)| && s.pipes[k - 1].sent[t] == Stream(c.max, k - 1)[t]
    requires !Readable(s, k - 1) ==> Taken(s, k - 1) == |Stream(c.max, k - 1)|
    ensures var t := Sys(s.procs, Pipes(c, s, k)); Data(c, k, last, Next(c, s, k), Taken(t, k - 1), Sent(t, k))
  {
    hide Stream, Filtered, Sift, Range, Open;
    var t := Taken(s, k - 1);
    if s.procs[k].pc == Loop {
      FilteredPrefix(c, k, t);
      if Readable(s, k - 1) {
        FilteredNext(c, k, t);
      }
    }
  }

  lemma OtherData(c: Config, s: Sys, k: nat, last: bool)
    requires k > 0 && Enabled(c, s, k) && Placed(k, s.procs[k].pc) && Next(c, s, k).pc != Killed
    requires !Reads(s.procs[k].pc)
    requires Data(c, k, last, s.procs[k], Taken(s, k - 1), Sent(s, k))
    requires if s.procs[k].pc == MakePipe then |s.pipes| == k else Stage(s.procs[k].pc) > 0 ==> k < |s.pipes|
    requires last <==> Stage(s.procs[k].pc) < 2
    ensures var t := Sys(s.procs, Pipes(c, s, k));
      Data(c, k, last && s.procs[k].pc != Fork, Next(c, s, k), Taken(t, k - 1), Sent(t, k))
  {
    hide Stream, Filtered, Sift, Range;
    PipesFrame(c, s, k, k - 1);
    var pc := s.procs[k].pc;
    if pc.AtEof? {
      StreamAfterEmpty(c.max, k);
    } else if pc == CloseRead {
      FilteredPrefix(c, k, 1);
    }
  }

  predicate Reads(pc: Pc) { pc == First || pc == Loop }

  // What process k wrote and read, given only what concerns it: reads follow the stream and end of
  // file comes at its end.
  lemma NextData(c: Config, s: Sys, k: nat, last: bool)
    requires Enabled(c, s, k) && Placed(k, s.procs[k].pc) && Next(c, s, k).pc != Killed
    requires Data(c, k, last, s.procs[k], Taken(s, k - 1), Sent(s, k))
    requires if s.procs[k].pc == MakePipe then |s.pipes| == k else Stage(s.procs[k].pc) > 0 ==> k < |s.pipes|
    requires last <==> Stage(s.procs[k].pc) < 2
    requires Reads(s.procs[k].pc) && Readable(s, k - 1) ==>
      var t := Taken(s, k - 1); t < |Stream(c.max, k - 1)| && s.pipes[k - 1].sent[t] == Stream(c.max, k - 1)[t]
    requires Reads(s.procs[k].pc) && !Readable(s, k - 1) ==> Taken(s, k - 1) == |Stream(c.max, k - 1)|
    ensures var t := Sys(s.procs, Pipes(c, s, k));
      Data(c, k, last && s.procs[k].pc != Fork, Next(c, s, k), Taken(t, k - 1), Sent(t, k))
  {
    hide Stream, Filtered, Sift, Range, Open;
    if k == 0 {
      GeneratorData(c, s, last);
    } else if Reads(s.procs[k].pc) {
      ReadData(c, s, k, last);
    } else {
      OtherData(c, s, k, last);
    }
  }

  lemma PlaceOf(c: Config, s: Sys, k: nat)
    requires Chain(s) && Enabled(c, s, k)
    ensures Placed(k, s.procs[k].pc) && (k == |s.procs| - 1 <==> Stage(s.procs[k].pc) < 2)
    ensures if s.procs[k].pc == MakePipe then |s.pipes| == k else Stage(s.procs[k].pc) > 0 ==> k < |s.pipes|
  {
  }

  lemma CallerData(c: Config, s: Sys, k: nat)
    requires Inv(c, s) && Enabled(c, s, k)
    ensures var t := Step(c, s, k); Data(c, k, k == |t.procs| - 1, Next(c, s, k), Taken(t, k - 1), Sent(t, k))
  {
    NeverKilled(c, s, k);
    PlaceOf(c, s, k);
    if Reads(s.procs[k].pc) {
      if Readable(s, k - 1) {
        ReadsStream(c, s, k);
      } else {
        EofMeansAll(c, s, k);
      }
    }
    var last := k == |s.procs| - 1;
    assert Data(c, k, last, s.procs[k], Taken(s, k - 1), Sent(s, k));
    hide Data, Chain, Descriptors, Next, Pipes, Enabled, Placed, Stage, Stream;
    NextData(c, s, k, last);
  }

  // A new process finds its left pipe empty and has none of its own.
  lemma ChildData(c: Config, s: Sys, k: nat)
    requires Inv(c, s) && Enabled(c, s, k) && s.procs[k].pc == Fork
    ensures k == |s.procs| - 1
    ensures var t := Step(c, s, k); Data(c, k + 1, true, t.procs[k + 1], Taken(t, k), Sent(t, k + 1))
  {
    PlaceOf(c, s, k);
    hide Descriptors, Stream, Filtered;
    assert Data(c, k, true, s.procs[k], Taken(s, k - 1), Sent(s, k));
  }

  lemma OthersData(c: Config, s: Sys, k: nat, j: nat)
    requires Flow(c, s) && Enabled(c, s, k) && (s.procs[k].pc == MakePipe ==> |s.pipes| == k)
    requires j < |s.procs| && j != k && (s.procs[k].pc == Fork ==> k == |s.procs| - 1)
    ensures var t := Step(c, s, k); Data(c, j, j == |t.procs| - 1, t.procs[j], Taken(t, j - 1), Sent(t, j))
  {
    hide Data, Next, Pipes, Placed, Stage;
    PipesFrame(c, s, k, j - 1);
    PipesFrame(c, s, k, j);
    assert Data(c, j, j == |s.procs| - 1, s.procs[j], Taken(s, j - 1), Sent(s, j));
  }

  lemma ProcData(c: Config, s: Sys, k: nat, j: nat)
    requires Inv(c, s) && Enabled(c, s, k) && j < |Step(c, s, k).procs|
    ensures var t := Step(c, s, k); Data(c, j, j == |t.procs| - 1, t.procs[j], Taken(t, j - 1), Sent(t, j))
  {
    PlaceOf(c, s, k);
    hide Data, Chain, Descriptors, Next, Pipes, Placed, Stage, Taken, Sent;
    if j == k {
      CallerData(c, s, k);
    } else if j < |s.procs| {
      if s.procs[k].pc == Fork {
        ChildData(c, s, k);
      }
      OthersData(c, s, k, j);
    } else {
      ChildData(c, s, k);
    }
  }

  lemma FlowKeeps(c: Config, s: Sys, k: nat)
    requires Inv(c, s) && Enabled(c, s, k)
    ensures Flow(c, Step(c, s, k))
  {
    CountsKeep(c, s, k);
    var t := Step(c, s, k);
    hide Inv, Chain, Descriptors, Data, Next, Child, Pipes, Enabled, Taken, Sent;
    forall j | 0 <= j < |t.procs|
      ensures Data(c, j, j == |t.procs| - 1, t.procs[j], Taken(t, j - 1), Sent(t, j))
    {
      ProcData(c, s, k, j);
    }
  }

  lemma InRange(c: Config, s: Sys, k: nat)
    requires Enabled(c, s, k)
    ensures k < |s.procs|
  {
  }

  lemma StepKeeps(c: Config, s: Sys, k: nat)
    requires Inv(c, s) && Enabled(c, s, k)
    ensures Inv(c, Step(c, s, k))
  {
    InRange(c, s, k);
    hide Flow, Chain, Descriptors, Enabled, Step;
    ChainKeeps(c, s, k);
    DescriptorsKeep(c, s, k);
    FlowKeeps(c, s, k);
  }
}
