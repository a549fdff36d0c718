/**
 * Page faults handed to user code and back (page_fault_handler in kern/trap.c, _pgfault_upcall in
 * lib/pfentry.S), on byte-addressed memory.
 */
module Fault {

  const PGSIZE := 4096
  const SPACE := 0x1_0000_0000
  const UXSTACKTOP := 0xeec0_0000
  const EXSTK := UXSTACKTOP - PGSIZE
  const EXSTK_TOP := UXSTACKTOP - 1
  const FRAME := 52                       // sizeof(struct UTrapframe)

  type Byte = x: int | 0 <= x < 256
  type Word = x: int | 0 <= x < SPACE

  // ---- Memory ----------------------------------------------------------------------------

  function Bytes(x: Word): (b: seq<Byte>)
    ensures |b| == 4
  {
    [x % 256, x / 256 % 256, x / 256 / 256 % 256, x / 256 / 256 / 256]
  }

  function Value(b: seq<Byte>): (x: Word)
    requires |b| == 4
  {
    var b0: int, b1: int, b2: int, b3: int := b[0], b[1], b[2], b[3];
    b0 + 256 * (b1 + 256 * (b2 + 256 * b3))
  }

  type Memory = m: seq<Byte> | |m| == SPACE witness seq(SPACE, _ => 0)

  function Load(m: Memory, a: int): Word
    requires 0 <= a <= SPACE - 4
  {
    Value(m[a..a + 4])
  }

  function Store(m: Memory, a: int, x: Word): (n: Memory)
    requires 0 <= a <= SPACE - 4
  {
    m[..a] + Bytes(x) + m[a + 4..]
  }

  lemma ValueBytes(x: Word)
    ensures Value(Bytes(x)) == x
  {
  }

  // A word reads back, and every byte outside it stays.
  lemma StoreEffect(m: Memory, a: int, x: Word)
    requires 0 <= a <= SPACE - 4
    ensures var n := Store(m, a, x);
      && Load(n, a) == x
      && (forall i :: 0 <= i < a || a + 4 <= i < SPACE ==> n[i] == m[i])
  {
    var n := Store(m, a, x);
    assert n[a..a + 4] == Bytes(x);
    ValueBytes(x);
  }

  lemma LoadSame(m: Memory, n: Memory, a: int)
    requires 0 <= a <= SPACE - 4 && forall i :: a <= i < a + 4 ==> m[i] == n[i]
    ensures Load(m, a) == Load(n, a)
  {
    assert m[a..a + 4] == n[a..a + 4];
  }

  function StoreWords(m: Memory, a: int, ws: seq<Word>): (n: Memory)
    requires 0 <= a <= SPACE - 4 * |ws|
    decreases |ws|
  {
    if ws == [] then m else StoreWords(Store(m, a, ws[0]), a + 4, ws[1..])
  }

  lemma {:induction false} StoreWordsEffect(m: Memory, a: int, ws: seq<Word>)
    requires 0 <= a <= SPACE - 4 * |ws|
    ensures var n := StoreWords(m, a, ws);
      && (forall i :: 0 <= i < a || a + 4 * |ws| <= i < SPACE ==> n[i] == m[i])
      && (forall k :: 0 <= k < |ws| ==> Load(n, a + 4 * k) == ws[k])
    decreases |ws|
  {
    if ws != [] {
      var m1 := Store(m, a, ws[0]);
      StoreEffect(m, a, ws[0]);
      StoreWordsEffect(m1, a + 4, ws[1..]);
      var n := StoreWords(m, a, ws);
      LoadSame(m1, n, a);
      forall k | 0 <= k < |ws|
        ensures Load(n, a + 4 * k) == ws[k]
      {
        if k > 0 {
          assert Load(n, a + 4 + 4 * (k - 1)) == ws[1..][k - 1];
        }
      }
    }
  }

  // ---- The processor in user mode --------------------------------------------------------

  datatype Regs = Regs(edi: Word, esi: Word, ebp: Word, ebx: Word, edx: Word, ecx: Word, eax: Word)

  datatype Machine = Machine(regs: Regs, eip: Word, eflags: Word, esp: Word, mem: Memory)

  // Panic: the stack overflow check fired. KernelFault: a store of the kernel itself faulted, which
  // is a panic too. Both with the memory at that moment.
  datatype Delivery = Delivered(m: Machine) | Destroyed | Panic(mem: Memory) | KernelFault(mem: Memory)

  // struct UTrapframe, in the order of its fields; oesp is the esp that pusha pushed.
  function Frame(m: Machine, va: Word, err: Word, oesp: Word): (ws: seq<Word>)
    ensures |ws| == 13
  {
    [va, err, m.regs.edi, m.regs.esi, m.regs.ebp, oesp, m.regs.ebx, m.regs.edx, m.regs.ecx, m.regs.eax,
     m.eip, m.eflags, m.esp]
  }

  predicate OnExceptionStack(esp: Word) { EXSTK <= esp <= EXSTK_TOP }

  // Where the frame goes: below the top of the page, or below the trap-time stack pointer and one
  // reserved word.
  function FrameBase(esp: Word): int {
    if OnExceptionStack(esp) then esp - 4 - FRAME else EXSTK_TOP - FRAME
  }

  // page_fault_handler. usable: the exception stack page is mapped writable for the user; below: the
  // page below it is mapped writable. The check for overflow comes after the stores it would forbid.
  function Deliver(m: Machine, upcall: Word, usable: bool, below: bool, va: Word, err: Word, oesp: Word): (d: Delivery) {
    var base := FrameBase(m.esp);
    if upcall == 0 || !usable then Destroyed
    else if OnExceptionStack(m.esp) && m.esp - 4 < EXSTK && !below then KernelFault(m.mem)
    else
      var mem := if OnExceptionStack(m.esp) then Store(m.mem, m.esp - 4, 0) else m.mem;
      if base < EXSTK && !below then KernelFault(mem)
      else
        var done := StoreWords(mem, base, Frame(m, va, err, oesp));
        if base < EXSTK then Panic(done) else Delivered(Machine(m.regs, upcall, m.eflags, base, done))
  }

  // An overflow writes to the page below when it can: every byte from the frame's base to the
  // trap-time stack pointer, and nothing else; when it cannot, at most the reserved word.
  lemma OverflowWrites(m: Machine, upcall: Word, below: bool, va: Word, err: Word, oesp: Word)
    requires upcall != 0
    ensures var d := Deliver(m, upcall, true, below, va, err, oesp);
      && (d.Delivered? <==> EXSTK <= FrameBase(m.esp))
      && (!d.Delivered? ==> (if below then d.Panic? else d.KernelFault?) && EXSTK - 56 <= FrameBase(m.esp) < EXSTK)
      && (d.Panic? ==>
            && (forall a :: 0 <= a < SPACE && !(FrameBase(m.esp) <= a < m.esp) ==> d.mem[a] == m.mem[a])
            && (forall k :: 0 <= k < 13 ==> Load(d.mem, FrameBase(m.esp) + 4 * k) == Frame(m, va, err, oesp)[k]))
      && (d.KernelFault? ==>
            forall a :: 0 <= a < SPACE && !(EXSTK <= m.esp - 4 <= a < m.esp) ==> d.mem[a] == m.mem[a])
  {
    hide Load, Store, StoreWords, Frame;
    var base := FrameBase(m.esp);
    if OnExceptionStack(m.esp) {
      StoreEffect(m.mem, m.esp - 4, 0);
    }
    var mem := if OnExceptionStack(m.esp) then Store(m.mem, m.esp - 4, 0) else m.mem;
    StoreWordsEffect(mem, base, Frame(m, va, err, oesp));
    assert forall a :: 0 <= a < SPACE && !(EXSTK <= m.esp - 4 <= a < m.esp) && EXSTK <= m.esp - 4 ==> mem[a] == m.mem[a];
  }

  // _pgfault_upcall after the C handler returned: push the trap-time eip on the trap-time stack.
  function Pushed(m: Machine): (t: Machine)
    requires m.esp <= SPACE - FRAME && 4 <= Load(m.mem, m.esp + 48)
    ensures t.esp == m.esp && Load(t.mem, t.esp + 48) == Load(m.mem, m.esp + 48) - 4
  {
    var eax := Load(m.mem, m.esp + 40);
    var ebx := Load(m.mem, m.esp + 48) - 4;
    var mem1 := Store(m.mem, ebx, eax);
    StoreEffect(mem1, m.esp + 48, ebx);
    m.(regs := m.regs.(eax := eax, ebx := ebx), mem := Store(mem1, m.esp + 48, ebx))
  }

  // Then pop the saved state, ending with popl %esp and ret.
  function Popped(m: Machine): (t: Machine)
    requires m.esp <= SPACE - FRAME && Load(m.mem, m.esp + 48) < SPACE - 4
  {
    var regs := m.esp + 8;
    var restored := Regs(Load(m.mem, regs), Load(m.mem, regs + 4), Load(m.mem, regs + 8), Load(m.mem, regs + 16),
                         Load(m.mem, regs + 20), Load(m.mem, regs + 24), Load(m.mem, regs + 28));
    var esp := Load(m.mem, m.esp + 48);
    Machine(restored, Load(m.mem, esp), Load(m.mem, m.esp + 44), esp + 4, m.mem)
  }

  function Return(m: Machine): (t: Machine)
    requires m.esp <= SPACE - FRAME && 4 <= Load(m.mem, m.esp + 48)
  {
    Popped(Pushed(m))
  }

  // ---- One fault -------------------------------------------------------------------------

  // What the kernel wrote: the frame at its base, and on the exception stack one zero word more.
  lemma DeliverEffect(m: Machine, upcall: Word, below: bool, va: Word, err: Word, oesp: Word)
    requires Deliver(m, upcall, true, below, va, err, oesp).Delivered?
    ensures var d := Deliver(m, upcall, true, below, va, err, oesp).m; var base := FrameBase(m.esp);
      && d == m.(eip := upcall, esp := base, mem := d.mem) && EXSTK <= base <= EXSTK_TOP - FRAME
      && (forall k :: 0 <= k < 13 ==> Load(d.mem, base + 4 * k) == Frame(m, va, err, oesp)[k])
      && (forall a :: 0 <= a < SPACE && !(base <= a < base + FRAME) && !(OnExceptionStack(m.esp) && m.esp - 4 <= a < m.esp)
            ==> d.mem[a] == m.mem[a])
      && (OnExceptionStack(m.esp) ==> base + FRAME == m.esp - 4 && Load(d.mem, m.esp - 4) == 0)
  {
    var base := FrameBase(m.esp);
    var mem := if OnExceptionStack(m.esp) then Store(m.mem, m.esp - 4, 0) else m.mem;
    if OnExceptionStack(m.esp) {
      StoreEffect(m.mem, m.esp - 4, 0);
    }
    var ws := Frame(m, va, err, oesp);
    StoreWordsEffect(mem, base, ws);
    if OnExceptionStack(m.esp) {
      LoadSame(mem, StoreWords(mem, base, ws), m.esp - 4);
    }
  }

  // Word k of the frame at base.
  function Field(m: Memory, base: int, k: nat): Word
    requires k < 13 && 0 <= base <= SPACE - FRAME
  {
    Load(m, base + 4 * k)
  }

  // The memory of the frame at base survived the handler.
  predicate FrameIntact(h: Memory, base: int, ws: seq<Word>)
    requires |ws| == 13 && 0 <= base <= SPACE - FRAME
  {
    forall k :: 0 <= k < 13 ==> Field(h, base, k) == ws[k]
  }

  lemma BytesValue(b: seq<Byte>)
    requires |b| == 4
    ensures Bytes(Value(b)) == b
  {
    var b0: int, b1: int, b2: int, b3: int := b[0], b[1], b[2], b[3];
    var x := Value(b);
    assert x == b0 + 256 * (b1 + 256 * (b2 + 256 * b3));
    assert x / 256 == b1 + 256 * (b2 + 256 * b3);
    assert x / 256 / 256 == b2 + 256 * b3;
  }

  // The word below the trap-time stack pointer takes the return address. It shares bytes with the
  // frame only if that pointer is one to three bytes above the last byte of the exception stack.
  predicate SlotOverlaps(esp: Word) { UXSTACKTOP <= esp < UXSTACKTOP + 3 }

  // No byte is shared, or the bytes of the return address that the second store overwrites
  // already had its values.
  predicate Survives(esp: Word, eip: Word) {
    SlotOverlaps(esp) ==>
      var over := UXSTACKTOP + 3 - esp;
      Bytes(eip)[..over] == Bytes(esp - 4)[4 - over..]
  }

  lemma MixedBytes(m: Memory, esp: Word, eip: Word)
    requires SlotOverlaps(esp)
    ensures var over := UXSTACKTOP + 3 - esp; var slot := esp - 4;
      Store(Store(m, slot, eip), EXSTK_TOP - 4, slot)[slot..slot + 4] == Bytes(slot)[4 - over..] + Bytes(eip)[over..]
  {
    hide Bytes;
    var over := UXSTACKTOP + 3 - esp;
    var slot := esp - 4;
    var m1 := Store(m, slot, eip);
    var n := Store(m1, EXSTK_TOP - 4, slot);
    assert forall i :: over <= i < 4 ==> n[slot + i] == m1[slot + i] == Bytes(eip)[i];
    assert forall i :: 4 - over <= i < 4 ==> n[slot + i - (4 - over)] == Bytes(slot)[i];
  }

  // With a stack pointer in those three places the address of the faulting instruction is lost
  // unless its overwritten bytes happen to agree.
  lemma OverlapExact(m: Memory, esp: Word, eip: Word)
    requires SlotOverlaps(esp)
    ensures var base := EXSTK_TOP - FRAME;
      Load(Store(Store(m, esp - 4, eip), base + 48, esp - 4), esp - 4) == eip <==> Survives(esp, eip)
  {
    hide Bytes, Value, Store;
    var base := EXSTK_TOP - FRAME;
    var over := UXSTACKTOP + 3 - esp;
    var slot := esp - 4;
    var n := Store(Store(m, slot, eip), base + 48, slot);
    MixedBytes(m, esp, eip);
    assert Bytes(eip) == Bytes(eip)[..over] + Bytes(eip)[over..];
    ValueBytes(eip);
    BytesValue(n[slot..slot + 4]);
    if n[slot..slot + 4] == Bytes(eip) {
      assert n[slot..slot + 4][..over] == Bytes(slot)[4 - over..];
    }
  }

  lemma TwoStores(m: Memory, base: int, slot: Word, eip: Word)
    requires 0 <= base <= SPACE - FRAME && slot <= SPACE - 4 && (slot + 4 <= base || base + 48 < slot)
    ensures var n := Store(Store(m, slot, eip), base + 48, slot);
      && (forall k :: 0 <= k < 12 ==> Field(n, base, k) == Field(m, base, k))
      && Load(n, base + 48) == slot && (slot + 4 <= base || base + FRAME <= slot ==> Load(n, slot) == eip)
      && (forall a :: 0 <= a < SPACE && !(slot <= a < slot + 4) && !(base + 48 <= a < base + FRAME) ==> n[a] == m[a])
  {
    var m1 := Store(m, slot, eip);
    StoreEffect(m, slot, eip);
    var n := Store(m1, base + 48, slot);
    StoreEffect(m1, base + 48, slot);
    forall k | 0 <= k < 12
      ensures Field(n, base, k) == Field(m, base, k)
    {
      LoadSame(m, n, base + 4 * k);
    }
    if slot + 4 <= base || base + FRAME <= slot {
      LoadSame(m1, n, slot);
    }
  }

  // The upcall restores the trap-time registers, flags and stack pointer, and the trap-time eip
  // exactly when it survives; it changes two words: the one below the trap-time stack pointer and
  // the frame's copy of that pointer.
  lemma ReturnEffect(m: Machine, h: Machine, va: Word, err: Word, oesp: Word)
    requires EXSTK <= h.esp <= EXSTK_TOP - FRAME && h.esp == FrameBase(m.esp) && 4 <= m.esp
    requires FrameIntact(h.mem, h.esp, Frame(m, va, err, oesp))
    ensures Load(h.mem, h.esp + 48) == m.esp
    ensures var t := Return(h);
      && t == m.(eip := t.eip, mem := t.mem)
      && (t.eip == m.eip <==> Survives(m.esp, m.eip))
      && (forall a :: 0 <= a < SPACE && !(m.esp - 4 <= a < m.esp) && !(h.esp + 48 <= a < h.esp + FRAME) ==>
            t.mem[a] == h.mem[a])
  {
    hide Load, Store, Bytes, Value, Survives;
    var base := h.esp;
    var ws := Frame(m, va, err, oesp);
    var slot := m.esp - 4;
    assert Field(h.mem, base, 10) == ws[10] && Field(h.mem, base, 12) == ws[12];
    TwoStores(h.mem, base, slot, m.eip);
    EipSurvives(h.mem, base, m.esp, m.eip);
    var n := Store(Store(h.mem, slot, m.eip), base + 48, slot);
    assert Field(n, base, 2) == ws[2] && Field(n, base, 3) == ws[3] && Field(n, base, 4) == ws[4];
    assert Field(n, base, 6) == ws[6] && Field(n, base, 7) == ws[7] && Field(n, base, 8) == ws[8];
    assert Field(n, base, 9) == ws[9] && Field(n, base, 11) == ws[11];
  }

  lemma EipSurvives(m: Memory, base: int, esp: Word, eip: Word)
    requires EXSTK <= base <= EXSTK_TOP - FRAME && base == FrameBase(esp) && 4 <= esp
    ensures Load(Store(Store(m, esp - 4, eip), base + 48, esp - 4), esp - 4) == eip <==> Survives(esp, eip)
  {
    hide Load, Store, Bytes, Value;
    if SlotOverlaps(esp) {
      OverlapExact(m, esp, eip);
    } else {
      TwoStores(m, base, esp - 4, eip);
    }
  }

  // ---- Handlers that fault themselves ----------------------------------------------------

  // What a handler does between the delivery and its return: compute, move its stack pointer,
  // write memory, and take further faults, whose handlers do the same.
  datatype Act =
    | Compute(regs: Regs, eip: Word, eflags: Word)
    | Stack(esp: Word)
    | Poke(a: Word, b: Byte)
    | Nested(va: Word, err: Word, oesp: Word, body: seq<Act>)

  datatype Maybe = Back(m: Machine) | Lost

  // Running a handler whose frame is at base. Lost when it leaves the exception stack, writes over
  // its frame or those above, or a nested fault does not return.
  function Exec(m: Machine, base: Word, acts: seq<Act>, upcall: Word, below: bool): Maybe
    decreases acts, 0
  {
    if acts == [] then Back(m) else
    match acts[0]
    case Compute(regs, eip, eflags) => Exec(Machine(regs, eip, eflags, m.esp, m.mem), base, acts[1..], upcall, below)
    case Stack(esp) => if EXSTK <= esp <= base then Exec(m.(esp := esp), base, acts[1..], upcall, below) else Lost
    case Poke(a, b) =>
      if base <= a < UXSTACKTOP then Lost else Exec(m.(mem := m.mem[a := b]), base, acts[1..], upcall, below)
    case Nested(va, err, oesp, body) =>
      match TakeFault(m, va, err, oesp, body, upcall, below)
      case Back(t) => Exec(t, base, acts[1..], upcall, below)
      case Lost => Lost
  }

  // A whole fault: delivery, the handler, which leaves the stack pointer at its frame, and return.
  function TakeFault(m: Machine, va: Word, err: Word, oesp: Word, body: seq<Act>, upcall: Word, below: bool): Maybe
    decreases body, 1
  {
    match Deliver(m, upcall, true, below, va, err, oesp)
    case Delivered(d) =>
      (match Exec(d, d.esp, body, upcall, below)
      case Lost => Lost
      case Back(h) =>
        if h.esp == d.esp && h.esp <= SPACE - FRAME && 4 <= Load(h.mem, h.esp + 48) then Back(Return(h)) else Lost)
    case _ => Lost
  }

  predicate SameAbove(m: Memory, n: Memory, from: int) {
    forall a :: 0 <= from <= a < UXSTACKTOP ==> m[a] == n[a]
  }

  // Faults nested to any depth: the trap-time registers, flags and stack pointer are restored, and
  // the address exactly when it survives, which it does on the exception stack; there nothing from
  // the trap-time stack pointer up changed either.
  lemma {:induction false} FaultIdentity(m: Machine, va: Word, err: Word, oesp: Word, body: seq<Act>, upcall: Word, below: bool)
    requires 4 <= m.esp && TakeFault(m, va, err, oesp, body, upcall, below).Back?
    ensures var t := TakeFault(m, va, err, oesp, body, upcall, below).m;
      && t == m.(eip := t.eip, mem := t.mem)
      && (t.eip == m.eip <==> Survives(m.esp, m.eip))
      && (OnExceptionStack(m.esp) ==> t.eip == m.eip && SameAbove(m.mem, t.mem, m.esp))
    decreases body, 1
  {
    hide Load, Store, StoreWords, Deliver, Return;
    DeliverEffect(m, upcall, below, va, err, oesp);
    var d := Deliver(m, upcall, true, below, va, err, oesp).m;
    ExecKeeps(d, d.esp, body, upcall, below);
    var h := Exec(d, d.esp, body, upcall, below).m;
    var ws := Frame(m, va, err, oesp);
    forall k | 0 <= k < 13
      ensures Field(h.mem, h.esp, k) == ws[k]
    {
      LoadSame(d.mem, h.mem, h.esp + 4 * k);
      assert Load(d.mem, d.esp + 4 * k) == ws[k];
    }
    ReturnEffect(m, h, va, err, oesp);
  }

  // A fault taken with the stack pointer just above the exception stack, as when the stack there is
  // empty: it is handled and everything is restored but the address to go on at.
  lemma AddressLost(m: Machine, upcall: Word, below: bool, va: Word, err: Word, oesp: Word)
    requires m.esp == UXSTACKTOP && m.eip == 0x80_0020 && upcall != 0
    ensures TakeFault(m, va, err, oesp, [], upcall, below).Back?
    ensures TakeFault(m, va, err, oesp, [], upcall, below).m.eip != m.eip
  {
    hide Load, Store, StoreWords, Return, Value;
    assert Deliver(m, upcall, true, below, va, err, oesp).Delivered?;
    DeliverEffect(m, upcall, below, va, err, oesp);
    var d := Deliver(m, upcall, true, below, va, err, oesp).m;
    assert Load(d.mem, d.esp + 4 * 12) == Frame(m, va, err, oesp)[12] == UXSTACKTOP;
    assert Exec(d, d.esp, [], upcall, below) == Back(d);
    FaultIdentity(m, va, err, oesp, [], upcall, below);
    assert Bytes(0x80_0020)[..3][0] == 0x20 && Bytes(UXSTACKTOP - 4)[1..][0] == 0xff;
  }

  lemma {:induction false} ExecKeeps(m: Machine, base: Word, acts: seq<Act>, upcall: Word, below: bool)
    requires EXSTK <= m.esp <= base <= EXSTK_TOP && Exec(m, base, acts, upcall, below).Back?
    ensures var t := Exec(m, base, acts, upcall, below).m;
      EXSTK <= t.esp <= base && SameAbove(m.mem, t.mem, base)
    decreases acts, 0
  {
    if acts != [] {
      match acts[0]
      case Compute(regs, eip, eflags) => ExecKeeps(Machine(regs, eip, eflags, m.esp, m.mem), base, acts[1..], upcall, below);
      case Stack(esp) => ExecKeeps(m.(esp := esp), base, acts[1..], upcall, below);
      case Poke(a, b) => ExecKeeps(m.(mem := m.mem[a := b]), base, acts[1..], upcall, below);
      case Nested(va, err, oesp, body) =>
        FaultIdentity(m, va, err, oesp, body, upcall, below);
        var t := TakeFault(m, va, err, oesp, body, upcall, below).m;
        ExecKeeps(t, base, acts[1..], upcall, below);
    }
  }

  // ---- How deep faults can nest ----------------------------------------------------------

  // The frame base after n faults, each taken with the handler before it using d bytes of stack.
  function BaseAfter(n: nat, d: nat): int
    requires n > 0
  {
    if n == 1 then EXSTK_TOP - FRAME else BaseAfter(n - 1, d) - d - 4 - FRAME
  }

  // One page holds n frames exactly when 53 + (n - 1) * (56 + d) bytes fit; while they do, the
  // next fault is delivered exactly when one more frame fits.
  lemma {:induction false} DepthFits(n: nat, d: nat, m: Machine, upcall: Word, below: bool, va: Word, err: Word, oesp: Word)
    requires n > 0 && upcall != 0
    ensures EXSTK <= BaseAfter(n, d) <==> 53 + (n - 1) * (56 + d) <= PGSIZE
    ensures EXSTK <= m.esp == BaseAfter(n, d) - d ==>
      (Deliver(m, upcall, true, below, va, err, oesp).Delivered? <==> 53 + n * (56 + d) <= PGSIZE)
  {
    BaseClosed(n, d);
    BaseClosed(n + 1, d);
  }

  lemma {:induction false} BaseClosed(n: nat, d: nat)
    requires n > 0
    ensures BaseAfter(n, d) == UXSTACKTOP - 53 - (n - 1) * (56 + d)
  {
    if n > 1 {
      BaseClosed(n - 1, d);
      assert (n - 1) * (56 + d) == (n - 2) * (56 + d) + (56 + d);
    }
  }

  // ---- The same code on registers and memory updated in place ----------------------------

  class Processor {
    var edi: Word
    var esi: Word
    var ebp: Word
    var ebx: Word
    var edx: Word
    var ecx: Word
    var eax: Word
    var eip: Word
    var eflags: Word
    var esp: Word
    var mem: Memory

    ghost function State(): Machine
      reads this
    {
      Machine(Regs(edi, esi, ebp, ebx, edx, ecx, eax), eip, eflags, esp, mem)
    }

    method StoreFrame(at: int, ws: seq<Word>)
      requires 0 <= at <= SPACE - 4 * |ws|
      modifies this`mem
      ensures mem == StoreWords(old(mem), at, ws)
    {
      var i := 0;
      while i < |ws|
        invariant 0 <= i <= |ws|
        invariant StoreWords(mem, at + 4 * i, ws[i..]) == StoreWords(old(mem), at, ws)
      {
        mem := Store(mem, at + 4 * i, ws[i]);
        assert ws[i..][1..] == ws[i + 1..];
        i := i + 1;
      }
      assert ws[i..] == [];
    }

    // page_fault_handler
    method PageFaultHandler(upcall: Word, usable: bool, below: bool, va: Word, err: Word, oesp: Word) returns (r: Delivery)
      modifies this
      ensures r == Deliver(old(State()), upcall, usable, below, va, err, oesp)
      ensures match r
        case Delivered(m) => State() == m
        case Destroyed => State() == old(State())
        case _ => State() == old(State()).(mem := r.mem)
    {
      if upcall == 0 || !usable {
        return Destroyed;
      }
      hide Store, StoreWords;
      var frame := [va, err, edi, esi, ebp, oesp, ebx, edx, ecx, eax, eip, eflags, esp];
      assert frame == Frame(State(), va, err, oesp);
      var tmp: int := esp;
      if esp < EXSTK || esp > EXSTK_TOP {
        tmp := EXSTK_TOP - FRAME;
      } else {
        tmp := tmp - 4;
        if tmp < EXSTK && !below {
          return KernelFault(mem);
        }
        mem := Store(mem, tmp, 0);
        tmp := tmp - FRAME;
      }
      if tmp < EXSTK && !below {
        return KernelFault(mem);
      }
      StoreFrame(tmp, frame);
      if tmp < EXSTK || tmp > EXSTK_TOP {
        return Panic(mem);
      }
      esp := tmp;
      eip := upcall;
      r := Delivered(Machine(Regs(edi, esi, ebp, ebx, edx, ecx, eax), eip, eflags, esp, mem));
    }

    method PushReturnAddress()
      requires esp <= SPACE - FRAME && 4 <= Load(mem, esp + 48)
      modifies this
      ensures State() == Pushed(old(State()))
    {
      eax := Load(mem, esp + 40);
      ebx := Load(mem, esp + 48);
      ebx := ebx - 4;
      mem := Store(mem, ebx, eax);
      mem := Store(mem, esp + 48, ebx);
    }

    method Popal()
      requires esp <= SPACE - 44
      modifies this`edi, this`esi, this`ebp, this`ebx, this`edx, this`ecx, this`eax, this`esp
      ensures esp == old(esp) + 32
      ensures edi == Load(mem, old(esp)) && esi == Load(mem, old(esp) + 4) && ebp == Load(mem, old(esp) + 8)
      ensures ebx == Load(mem, old(esp) + 16) && edx == Load(mem, old(esp) + 20)
      ensures ecx == Load(mem, old(esp) + 24) && eax == Load(mem, old(esp) + 28)
    {
      hide Load;
      edi := Load(mem, esp);
      esi := Load(mem, esp + 4);
      ebp := Load(mem, esp + 8);
      ebx := Load(mem, esp + 16);
      edx := Load(mem, esp + 20);
      ecx := Load(mem, esp + 24);
      eax := Load(mem, esp + 28);
      esp := esp + 32;
    }

    method PopState()
      requires esp <= SPACE - FRAME && Load(mem, esp + 48) < SPACE - 4
      modifies this
      ensures State() == Popped(old(State()))
    {
      hide Load;
      // popl %eax, twice
      eax := Load(mem, esp);
      eax := Load(mem, esp + 4);
      esp := esp + 8;
      Popal();
      // addl $4, %esp; popfl
      esp := esp + 4;
      eflags := Load(mem, esp);
      esp := esp + 4;
      // popl %esp; ret
      esp := Load(mem, esp);
      eip := Load(mem, esp);
      esp := esp + 4;
    }

    // _pgfault_upcall after the C handler returned.
    method UpcallReturn()
      requires esp <= SPACE - FRAME && 4 <= Load(mem, esp + 48)
      modifies this
      ensures State() == Return(old(State()))
    {
      hide Load, Pushed, Popped;
      PushReturnAddress();
      PopState();
    }
  }
}
