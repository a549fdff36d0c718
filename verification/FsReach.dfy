/** Every tree fisopfs can reach within its space limit fits the records it is saved in. */
module FsReach {
  import opened FsPaths
  import opened FsTree
  import opened FsOps
  import opened FsView
  import opened FsSpace
  import opened FsImage
  import opened FsReload

  predicate RawFor(name: Name, raw: Raw) {
    |raw.junk| == MAXIMO_PATH - 1 - |name| && |raw.pre| == 48 && |raw.post| == 88 && |raw.pad| == 7
  }

  // Buffers have their sizes, and a directory only grew when it was full of entries that fit.
  predicate Laid(e: Entry, max: int) {
    match e
    case Vacio => true
    case File(head, _) => RawFor(head.name, head.raw)
    case Dir(head, _, slots) =>
      && RawFor(head.name, head.raw)
      && (|slots| <= ENTRADAS_INICIALES || 1104 * |slots| <= max)
      && forall i :: 0 <= i < |slots| ==> Laid(slots[i], max)
  }

  lemma {:induction false} SizeAt(slots: seq<Entry>, i: nat)
    requires i < |slots|
    ensures Size(slots[i]) <= SizeSlots(slots)
  {
    if i > 0 {
      SizeAt(slots[1..], i - 1);
    }
  }

  lemma {:induction false} SizeFind(e: Entry, cs: seq<Name>)
    requires Find(e, cs).Some?
    ensures Size(Find(e, cs).value) <= Size(e)
    decreases |cs|
  {
    if cs != [] {
      var i := SlotOf(e.slots, cs[0]);
      SizeFind(e.slots[i], cs[1..]);
      SizeAt(e.slots, i);
    }
  }

  lemma {:induction false} OccupiedSize(slots: seq<Entry>)
    ensures SIZE_FILE * Occupied(slots) <= SizeSlots(slots)
  {
    if slots != [] {
      OccupiedFront(slots);
      OccupiedSize(slots[1..]);
    }
  }

  // A name that fits its buffer.
  predicate Fits(e: Entry) {
    !e.Vacio? ==> |e.head.name| < MAXIMO_PATH && forall k :: 0 <= k < |e.head.name| ==> e.head.name[k] != NUL
  }

  lemma {:induction false} LaidStorable(e: Entry, max: int)
    requires Good(e) && Laid(e, max) && Fits(e) && Size(e) <= max < WORD
    ensures Storable(e)
    decreases e
  {
    if e.Dir? {
      forall i | 0 <= i < |e.slots|
        ensures Storable(e.slots[i])
      {
        assert Good(e.slots[i]);
        SizeAt(e.slots, i);
        LaidStorable(e.slots[i], max);
      }
    }
  }

  // ---- Operations ------------------------------------------------------------------------

  lemma {:induction false} LaidFind(e: Entry, cs: seq<Name>, max: int)
    requires Laid(e, max) && Find(e, cs).Some?
    ensures Laid(Find(e, cs).value, max)
    decreases |cs|
  {
    if cs != [] {
      LaidFind(e.slots[SlotOf(e.slots, cs[0])], cs[1..], max);
    }
  }

  lemma {:induction false} LaidReplace(e: Entry, cs: seq<Name>, x: Entry, max: int)
    requires Laid(e, max) && Laid(x, max) && Find(e, cs).Some?
    ensures Laid(Replace(e, cs, x), max)
    decreases |cs|
  {
    if cs != [] {
      LaidReplace(e.slots[SlotOf(e.slots, cs[0])], cs[1..], x, max);
    }
  }

  lemma LaidPlace(d: Entry, e: Entry, max: int)
    requires d.Dir? && Good(d) && Laid(d, max) && Laid(e, max) && !e.Vacio? && Place(d, e).Some?
    requires Size(Place(d, e).value) <= max
    ensures Laid(Place(d, e).value, max)
  {
    var i := EmptySlot(d.slots);
    var slots := d.slots[i := e];
    OccupiedSet(d.slots, i, e);
    OccupiedSize(slots);
    SizePlace(d, e);
    SizeSet(d.slots, i, e);
  }

  lemma LaidAdd(fs: Fs, cs: seq<Name>, e: Entry, size: nat)
    requires Ok(fs) && HasParent(fs, cs) && Laid(fs.root, fs.max) && Laid(e, fs.max) && !e.Vacio?
    requires Size(Add(fs, cs, e, size).0.root) <= fs.max
    ensures Laid(Add(fs, cs, e, size).0.root, fs.max)
  {
    hide Path, Place;
    var d := ParentEntry(fs, cs);
    FindGood(fs.root, Parent(cs));
    LaidFind(fs.root, Parent(cs), fs.max);
    if d.Dir? && Place(d, e).Some? {
      var d1 := Place(d, e).value;
      SizeReplace(fs.root, Parent(cs), d1);
      SizeFind(fs.root, Parent(cs));
      LaidPlace(d, e, fs.max);
      LaidReplace(fs.root, Parent(cs), d1, fs.max);
    }
  }

  lemma LaidVacate(fs: Fs, p: seq<Name>, i: nat)
    requires Laid(fs.root, fs.max) && Find(fs.root, p).Some? && Find(fs.root, p).value.Dir?
    requires i < |Find(fs.root, p).value.slots| && Find(fs.root, p).value.occupied > 0
    ensures Laid(Replace(fs.root, p, Vacate(Find(fs.root, p).value, i)), fs.max)
  {
    LaidFind(fs.root, p, fs.max);
    LaidReplace(fs.root, p, Vacate(Find(fs.root, p).value, i), fs.max);
  }

  // The buffers of what an operation creates.
  predicate Sized(op: Op) {
    match op
    case OpMkdir(cs, raw) => cs != [] && RawFor(cs[|cs| - 1], raw)
    case OpCreate(cs, _, raw) => cs != [] && RawFor(cs[|cs| - 1], raw)
    case _ => true
  }

  lemma LaidMade(name: Name, raw: Raw, max: int)
    requires RawFor(name, raw)
    ensures Laid(NewDir(name, raw), max) && Laid(NewFile(name, raw), max)
  {
  }

  lemma LaidDo(fs: Fs, op: Op)
    requires Ok(fs) && Allowed(fs, op) && Sized(op) && Laid(fs.root, fs.max) && Size(Do(fs, op).0.root) <= fs.max
    ensures Laid(Do(fs, op).0.root, fs.max)
  {
    hide Path, Good, FinalName, Add, ParentEntry, SlotOfKind, Vacate, Laid, NewDir, Resized, Overwritten;
    match op
    case OpMkdir(cs, raw) =>
      FinalNameIs(fs, cs);
      LaidMade(cs[|cs| - 1], raw, fs.max);
      LaidNew(fs, cs, NewDir(cs[|cs| - 1], raw), SIZE_DIR);
    case OpCreate(cs, regular, raw) =>
      FinalNameIs(fs, cs);
      LaidMade(cs[|cs| - 1], raw, fs.max);
      LaidNew(fs, cs, NewFile(cs[|cs| - 1], raw), SIZE_FILE);
    case OpUnlink(cs) => LaidRemove(fs, cs, true);
    case OpRmdir(cs) => LaidRemove(fs, cs, false);
    case OpTruncate(cs, size, gap) =>
      var e := EntryAt(fs, cs);
      if e.Some? && e.value.File? {
        LaidContent(fs, cs, Resized(e.value.content, size, gap));
      }
    case OpWrite(cs, buf, offset, gap) =>
      var e := EntryAt(fs, cs);
      if e.Some? && e.value.File? {
        var c, end := e.value.content, offset + |buf|;
        LaidContent(fs, cs, Overwritten(if end > |c| then Resized(c, end, gap) else c, buf, offset));
      }
  }

  lemma LaidNew(fs: Fs, cs: seq<Name>, e: Entry, size: nat)
    requires Ok(fs) && HasParent(fs, cs) && Laid(fs.root, fs.max) && Laid(e, fs.max) && !e.Vacio?
    ensures Size(Add(fs, cs, e, size).0.root) <= fs.max ==> Laid(Add(fs, cs, e, size).0.root, fs.max)
  {
    hide Add, Laid;
    if Size(Add(fs, cs, e, size).0.root) <= fs.max {
      LaidAdd(fs, cs, e, size);
    }
  }

  lemma LaidRemove(fs: Fs, cs: seq<Name>, file: bool)
    requires Ok(fs) && HasParent(fs, cs) && Laid(fs.root, fs.max)
    ensures Laid((if file then Unlink(fs, cs) else Rmdir(fs, cs)).0.root, fs.max)
  {
    hide Path, FinalName, SlotOfKind, Laid;
    var d := ParentEntry(fs, cs);
    if d.Dir? {
      FindGood(fs.root, Parent(cs));
      var i := SlotOfKind(d.slots, FinalName(Path(cs)), file);
      if i < |d.slots| {
        VacateGood(d, i);
        LaidVacate(fs, Parent(cs), i);
      }
    }
  }

  lemma LaidContent(fs: Fs, cs: seq<Name>, content: seq<Byte>)
    requires Laid(fs.root, fs.max) && Find(fs.root, cs).Some? && Find(fs.root, cs).value.File?
    ensures Laid(Replace(fs.root, cs, WithContent(Find(fs.root, cs).value, content)), fs.max)
  {
    LaidFind(fs.root, cs, fs.max);
    LaidReplace(fs.root, cs, WithContent(Find(fs.root, cs).value, content), fs.max);
  }

  // ---- Runs ------------------------------------------------------------------------------

  predicate Inv(fs: Fs) { Ok(fs) && Laid(fs.root, fs.max) && fs.space <= fs.max && Excess(fs) >= 0 }

  lemma {:induction false} RunLaid(fs: Fs, ops: seq<Op>)
    requires Inv(fs) && Legal(fs, ops) && forall i :: 0 <= i < |ops| ==> Sized(ops[i])
    ensures Inv(Run(fs, ops)) && Run(fs, ops).max == fs.max && Run(fs, ops).root.head == fs.root.head
    decreases |ops|
  {
    if ops != [] {
      var t := Do(fs, ops[0]).0;
      DoRefines(fs, ops[0], []);
      DoSpace(fs, ops[0]);
      LaidDo(fs, ops[0]);
      RootHead(fs, ops[0]);
      hide Ok, Do, Laid, Allowed, Sized, Leaked;
      RunLaid(t, ops[1..]);
    }
  }

  lemma RootHead(fs: Fs, op: Op)
    requires Ok(fs) && Allowed(fs, op) && Ok(Do(fs, op).0)
    ensures Do(fs, op).0.root.head == fs.root.head
  {
    hide Path, Good, FinalName, ParentEntry, SlotOfKind, NewDir, Resized, Overwritten, SlotOf;
  }

  // ---- Sessions --------------------------------------------------------------------------

  // A call, or an end of the process and a start with the file it flushed, whose pointers were ptr.
  datatype Act = Call(op: Op) | Remount(ptr: Pointers)

  lemma {:induction false} LaidCompact(e: Entry, max: int)
    requires Laid(e, max)
    ensures Laid(Compact(e), max)
    decreases e, 0
  {
    if e.Dir? {
      LaidCompactSlots(e.slots, max);
      CompactCount(e.slots);
    }
  }

  lemma {:induction false} LaidCompactSlots(slots: seq<Entry>, max: int)
    requires forall i :: 0 <= i < |slots| ==> Laid(slots[i], max)
    ensures forall i :: 0 <= i < |CompactSlots(slots)| ==> Laid(CompactSlots(slots)[i], max)
    decreases slots, 1
  {
    if slots != [] {
      LaidCompact(slots[0], max);
      LaidCompactSlots(slots[1..], max);
    }
  }

  // A state a session reaches: within a limit below 2^64, and mounted at "/".
  predicate Sound(fs: Fs) { Inv(fs) && fs.max < WORD && Fits(fs.root) }

  lemma Saves(fs: Fs, ptr: Pointers, suffix: seq<Byte>)
    requires Sound(fs)
    ensures Storable(fs.root) && 0 <= fs.space < WORD
    ensures LoadImage(Image(fs, ptr) + suffix, fs.max) == Mount.Mounted(Reloaded(fs), suffix)
  {
    LaidStorable(fs.root, fs.max);
    RoundTrip(fs, ptr, suffix);
  }

  lemma RemountSound(fs: Fs)
    requires Sound(fs)
    ensures Sound(Reloaded(fs))
  {
    LaidStorable(fs.root, fs.max);
    ReloadSame(fs, []);
    LaidCompact(fs.root, fs.max);
  }

  lemma CallSound(fs: Fs, op: Op)
    requires Sound(fs) && Allowed(fs, op) && Sized(op)
    ensures Sound(Do(fs, op).0) && Do(fs, op).0.max == fs.max
  {
    DoRefines(fs, op, []);
    DoSpace(fs, op);
    LaidDo(fs, op);
    RootHead(fs, op);
    hide Do, Laid, Allowed, Sized, Leaked, Good;
  }

  ghost predicate Feasible(fs: Fs, act: Act)
    requires Sound(fs)
  {
    act.Call? ==> Allowed(fs, act.op) && Sized(act.op)
  }

  // What follows an act: for a remount, what fisopfs_init reads from what fisopfs_flush wrote.
  ghost function After(fs: Fs, act: Act): (t: Fs)
    requires Sound(fs) && Feasible(fs, act)
  {
    match act
    case Call(op) => Do(fs, op).0
    case Remount(ptr) =>
      Saves(fs, ptr, []);
      match LoadImage(Image(fs, ptr), fs.max)
      case Failed => fs
      case Mounted(t, _) => t
  }

  lemma AfterSound(fs: Fs, act: Act)
    requires Sound(fs) && Feasible(fs, act)
    ensures Sound(After(fs, act)) && After(fs, act).max == fs.max
    ensures act.Remount? ==> After(fs, act) == Reloaded(fs)
  {
    hide Sound, LoadImage, Image, Reloaded, Do;
    match act
    case Call(op) => CallSound(fs, op);
    case Remount(ptr) =>
      Saves(fs, ptr, []);
      assert Image(fs, ptr) + [] == Image(fs, ptr);
      RemountSound(fs);
      SameMax(fs);
  }

  lemma SameMax(fs: Fs)
    ensures Reloaded(fs).max == fs.max
  {
  }

  ghost predicate Session(fs: Fs, acts: seq<Act>)
    requires Sound(fs)
    decreases |acts|
  {
    |acts| == 0 ||
    (Feasible(fs, acts[0]) && (AfterSound(fs, acts[0]); Session(After(fs, acts[0]), acts[1..])))
  }

  ghost function Final(fs: Fs, acts: seq<Act>): (t: Fs)
    requires Sound(fs) && Session(fs, acts)
    ensures Sound(t) && t.max == fs.max
    decreases |acts|
  {
    if |acts| == 0 then fs
    else
      AfterSound(fs, acts[0]);
      Final(After(fs, acts[0]), acts[1..])
  }

  // A path that no call names shows the same after any calls and remounts.
  lemma {:induction false} SessionUntouched(fs: Fs, acts: seq<Act>, q: seq<Name>)
    requires Sound(fs) && Session(fs, acts)
    requires forall i :: 0 <= i < |acts| && acts[i].Call? ==> acts[i].op.cs != q
    ensures View(Final(fs, acts).root, q) == View(fs.root, q)
    decreases |acts|
  {
    hide Sound, View, Feasible, Do, Reloaded;
    if |acts| > 0 {
      AfterSound(fs, acts[0]);
      ActView(fs, acts[0], q);
      SessionUntouched(After(fs, acts[0]), acts[1..], q);
    }
  }

  lemma ActView(fs: Fs, act: Act, q: seq<Name>)
    requires Sound(fs) && Feasible(fs, act) && (act.Call? ==> act.op.cs != q)
    ensures View(After(fs, act).root, q) == View(fs.root, q)
  {
    AfterSound(fs, act);
    match act
    case Call(op) => DoRefines(fs, op, q);
    case Remount(_) =>
      LaidStorable(fs.root, fs.max);
      ReloadSame(fs, q);
  }

  // A session can start with an empty file system.
  lemma EmptySound(max: int, raw: Raw)
    requires SIZE_FS + SIZE_DIR <= max < WORD && RawFor([SLASH], raw)
    ensures Sound(FsSpace.Mounted(max, raw))
  {
    MountedOk(max, raw, []);
    LaidMade([SLASH], raw, max);
  }

  // From an empty file system, with a limit below 2^64: whatever calls and remounts followed, the
  // tree can be saved, and loading it gives the same file system back.
  lemma ReachableRoundTrip(max: nat, raw: Raw, acts: seq<Act>, ptr: Pointers, suffix: seq<Byte>)
    requires SIZE_FS + SIZE_DIR <= max < WORD && RawFor([SLASH], raw)
    requires var fs := FsSpace.Mounted(max, raw); Sound(fs) && Session(fs, acts)
    ensures var t := Final(FsSpace.Mounted(max, raw), acts);
      && Storable(t.root) && 0 <= t.space < WORD
      && LoadImage(Image(t, ptr) + suffix, max) == Mount.Mounted(Reloaded(t), suffix)
  {
    Saves(Final(FsSpace.Mounted(max, raw), acts), ptr, suffix);
  }
}
