/**
 * Whole runs of fisopfs: the tree stays well-formed, and the space counter is the length of the
 * saved image plus the content of files unlinked while they were not empty.
 */
module FsSpace {
  import opened FsPaths
  import opened FsTree
  import opened FsOps
  import opened FsView

  // ---- Sizes -----------------------------------------------------------------------------

  // The bytes an entry takes in the saved image.
  function Size(e: Entry): nat {
    match e
    case Vacio => 0
    case File(_, content) => SIZE_FILE + |content|
    case Dir(_, _, slots) => SIZE_DIR + SizeSlots(slots)
  }

  function SizeSlots(slots: seq<Entry>): nat {
    if slots == [] then 0 else Size(slots[0]) + SizeSlots(slots[1..])
  }

  lemma {:induction false} SizeSet(slots: seq<Entry>, i: nat, e: Entry)
    requires i < |slots|
    ensures SizeSlots(slots[i := e]) == SizeSlots(slots) - Size(slots[i]) + Size(e)
  {
    if i > 0 {
      SizeSet(slots[1..], i - 1, e);
      assert slots[i := e][1..] == slots[1..][i - 1 := e];
    } else {
      assert slots[0 := e][1..] == slots[1..];
    }
  }

  lemma {:induction false} SizeAppend(a: seq<Entry>, b: seq<Entry>)
    ensures SizeSlots(a + b) == SizeSlots(a) + SizeSlots(b)
  {
    if a == [] {
      assert a + b == b;
    } else {
      SizeAppend(a[1..], b);
      assert (a + b)[1..] == a[1..] + b;
    }
  }

  lemma {:induction false} SizeVacios(n: nat)
    ensures SizeSlots(Vacios(n)) == 0
  {
    if n > 0 {
      SizeVacios(n - 1);
      assert Vacios(n)[1..] == Vacios(n - 1);
    }
  }

  lemma SizeExpand(d: Entry)
    requires d.Dir?
    ensures Size(Expand(d)) == Size(d)
  {
    SizeAppend(d.slots, Vacios(|d.slots|));
    SizeVacios(|d.slots|);
    SizeVacios(ENTRADAS_INICIALES);
  }

  lemma SizePlace(d: Entry, e: Entry)
    requires d.Dir? && Place(d, e).Some?
    ensures Size(Place(d, e).value) == Size(d) + Size(e)
  {
    var i := EmptySlot(d.slots);
    SizeSet(d.slots, i, e);
    SizeExpand(d.(slots := d.slots[i := e], occupied := d.occupied + 1));
  }

  lemma SizeVacate(d: Entry, i: nat)
    requires d.Dir? && i < |d.slots| && d.occupied > 0
    ensures Size(Vacate(d, i)) == Size(d) - Size(d.slots[i])
  {
    SizeSet(d.slots, i, Vacio);
  }

  lemma {:induction false} SizeReplace(e: Entry, cs: seq<Name>, x: Entry)
    requires Find(e, cs).Some?
    ensures Size(Replace(e, cs, x)) == Size(e) - Size(Find(e, cs).value) + Size(x)
    decreases |cs|
  {
    if cs != [] {
      var i := SlotOf(e.slots, cs[0]);
      SizeReplace(e.slots[i], cs[1..], x);
      SizeSet(e.slots, i, Replace(e.slots[i], cs[1..], x));
    }
  }

  lemma {:induction false} SizeLeaf(slots: seq<Entry>)
    requires forall i :: 0 <= i < |slots| ==> slots[i] == Vacio
    ensures SizeSlots(slots) == 0
  {
    if slots != [] {
      SizeLeaf(slots[1..]);
    }
  }

  // ---- The counter -----------------------------------------------------------------------

  function ImageLength(fs: Fs): nat { SIZE_FS + Size(fs.root) }

  // How far the counter is above the image.
  function Excess(fs: Fs): int { fs.space - ImageLength(fs) }

  // crear_directorio_raiz
  function Mounted(max: nat, raw: Raw): Fs {
    Fs(NewDir([SLASH], raw), SIZE_FS + SIZE_DIR, max)
  }

  lemma MountedOk(max: nat, raw: Raw, q: seq<Name>)
    ensures var fs := Mounted(max, raw);
      Ok(fs) && Excess(fs) == 0 && View(fs.root, q) == if q == [] then Directory else Absent
  {
    NewDirGood([SLASH], raw);
    NewDirLeaf([SLASH], raw);
    SizeLeaf(NewDir([SLASH], raw).slots);
    LeafView(NewDir([SLASH], raw), q);
  }

  lemma AddSpace(fs: Fs, cs: seq<Name>, e: Entry, size: nat)
    requires HasParent(fs, cs) && Size(e) == size
    ensures Excess(Add(fs, cs, e, size).0) == Excess(fs)
  {
    hide Path, Place;
    var d := ParentEntry(fs, cs);
    if d.Dir? && Place(d, e).Some? {
      SizePlace(d, e);
      SizeReplace(fs.root, Parent(cs), Place(d, e).value);
    }
  }

  lemma MkdirSpace(fs: Fs, cs: seq<Name>, raw: Raw)
    requires HasParent(fs, cs)
    ensures var t := Mkdir(fs, cs, raw).0; Excess(t) == Excess(fs) && (fs.space <= fs.max ==> t.space <= t.max)
  {
    hide Path, FinalName, Excess;
    SizeLeaf(NewDir(FinalName(Path(cs)), raw).slots);
    AddSpace(fs, cs, NewDir(FinalName(Path(cs)), raw), SIZE_DIR);
  }

  lemma CreateSpace(fs: Fs, cs: seq<Name>, regular: bool, raw: Raw)
    requires HasParent(fs, cs)
    ensures var t := Create(fs, cs, regular, raw).0; Excess(t) == Excess(fs) && (fs.space <= fs.max ==> t.space <= t.max)
  {
    hide Path, FinalName, Excess;
    AddSpace(fs, cs, NewFile(FinalName(Path(cs)), raw), SIZE_FILE);
  }

  // unlink refunds the header only: the content stays in the counter.
  lemma UnlinkSpace(fs: Fs, cs: seq<Name>)
    requires Ok(fs) && HasParent(fs, cs)
    ensures var (t, r) := Unlink(fs, cs); var n := View(fs.root, cs);
      Excess(t) == Excess(fs) + (if r == 0 && n.Regular? then |n.content| else 0) && t.space <= fs.space
  {
    UnlinkRefines(fs, cs, cs);
    var d := ParentEntry(fs, cs);
    if d.Dir? {
      InParent(fs, cs);
      KindSlot(d, FinalName(Path(cs)), true);
      hide Path, FinalName, ParentEntry, SlotOfKind, SlotOf, Good;
      if cs != [] && View(fs.root, cs).Regular? {
        var i := SlotOf(d.slots, cs[|cs| - 1]);
        VacateGood(d, i);
        SizeVacate(d, i);
        SizeReplace(fs.root, Parent(cs), Vacate(d, i));
      }
    }
  }

  lemma RmdirSpace(fs: Fs, cs: seq<Name>)
    requires Ok(fs) && HasParent(fs, cs)
    ensures var t := Rmdir(fs, cs).0; Excess(t) == Excess(fs) && t.space <= fs.space
  {
    var d := ParentEntry(fs, cs);
    if d.Dir? {
      InParent(fs, cs);
      KindSlot(d, FinalName(Path(cs)), false);
      hide Path, FinalName, ParentEntry, SlotOfKind, SlotOf, Good, HasEntries;
      if cs != [] && View(fs.root, cs) == Directory {
        var i := SlotOf(d.slots, cs[|cs| - 1]);
        VacateGood(d, i);
        EmptyMeans(fs, cs, d.slots[i]);
        SizeVacate(d, i);
        if d.slots[i].occupied == 0 {
          SizeLeaf(d.slots[i].slots);
        }
        SizeReplace(fs.root, Parent(cs), Vacate(d, i));
      }
    }
  }

  lemma TruncateSpace(fs: Fs, cs: seq<Name>, size: nat, gap: seq<Byte>)
    requires Ok(fs) && Called(fs, cs) && size <= |gap|
    ensures var t := Truncate(fs, cs, size, gap).0; Excess(t) == Excess(fs) && (fs.space <= fs.max ==> t.space <= t.max)
  {
    hide Path, Good, Resized;
    var e := EntryAt(fs, cs);
    if e.Some? && e.value.File? {
      SizeReplace(fs.root, cs, WithContent(e.value, Resized(e.value.content, size, gap)));
    }
  }

  lemma WriteSpace(fs: Fs, cs: seq<Name>, buf: seq<Byte>, offset: nat, gap: seq<Byte>)
    requires Ok(fs) && Called(fs, cs) && offset + |buf| <= |gap|
    ensures var t := Write(fs, cs, buf, offset, gap).0; Excess(t) == Excess(fs) && (fs.space <= fs.max ==> t.space <= t.max)
  {
    hide Path, Good, Resized, Overwritten;
    var e := EntryAt(fs, cs);
    if e.Some? && e.value.File? {
      var c, end := e.value.content, offset + |buf|;
      var base := if end > |c| then Resized(c, end, gap) else c;
      SizeReplace(fs.root, cs, WithContent(e.value, Overwritten(base, buf, offset)));
    }
  }

  // ---- Runs ------------------------------------------------------------------------------

  datatype Op =
    | OpMkdir(cs: seq<Name>, raw: Raw)
    | OpCreate(cs: seq<Name>, regular: bool, raw: Raw)
    | OpUnlink(cs: seq<Name>)
    | OpRmdir(cs: seq<Name>)
    | OpTruncate(cs: seq<Name>, size: nat, gap: seq<Byte>)
    | OpWrite(cs: seq<Name>, buf: seq<Byte>, offset: nat, gap: seq<Byte>)

  // What FUSE guarantees: existing parents, and fresh names for what is made.
  predicate Allowed(fs: Fs, op: Op) {
    match op
    case OpMkdir(cs, _) => HasParent(fs, cs) && View(fs.root, cs) == Absent
    case OpCreate(cs, _, _) => HasParent(fs, cs) && View(fs.root, cs) == Absent
    case OpUnlink(cs) => HasParent(fs, cs)
    case OpRmdir(cs) => HasParent(fs, cs)
    case OpTruncate(cs, size, gap) => Called(fs, cs) && size <= |gap|
    case OpWrite(cs, buf, offset, gap) => Called(fs, cs) && offset + |buf| <= |gap|
  }

  function Do(fs: Fs, op: Op): (Fs, int)
    requires Ok(fs) && Allowed(fs, op)
  {
    match op
    case OpMkdir(cs, raw) => Mkdir(fs, cs, raw)
    case OpCreate(cs, regular, raw) => Create(fs, cs, regular, raw)
    case OpUnlink(cs) => Unlink(fs, cs)
    case OpRmdir(cs) => Rmdir(fs, cs)
    case OpTruncate(cs, size, gap) => Truncate(fs, cs, size, gap)
    case OpWrite(cs, buf, offset, gap) => Write(fs, cs, buf, offset, gap)
  }

  // The content bytes an operation leaves counted for ever.
  function Leaked(fs: Fs, op: Op): nat
    requires Ok(fs) && Allowed(fs, op)
  {
    if op.OpUnlink? && Do(fs, op).1 == 0 && View(fs.root, op.cs).Regular? then |View(fs.root, op.cs).content| else 0
  }

  // Every operation keeps the tree well-formed and touches no path but its own.
  lemma DoRefines(fs: Fs, op: Op, q: seq<Name>)
    requires Ok(fs) && Allowed(fs, op)
    ensures var t := Do(fs, op).0;
      Ok(t) && t.max == fs.max && (q != op.cs ==> View(t.root, q) == View(fs.root, q))
  {
    hide Ok, View, Mkdir, Create, Unlink, Rmdir, Truncate, Write;
    match op
    case OpMkdir(cs, raw) => MkdirRefines(fs, cs, raw, q);
    case OpCreate(cs, regular, raw) => CreateRefines(fs, cs, regular, raw, q);
    case OpUnlink(cs) => UnlinkRefines(fs, cs, q);
    case OpRmdir(cs) => RmdirRefines(fs, cs, q);
    case OpTruncate(cs, size, gap) => TruncateRefines(fs, cs, size, gap, q);
    case OpWrite(cs, buf, offset, gap) => WriteRefines(fs, cs, buf, offset, gap, q);
  }

  lemma DoSpace(fs: Fs, op: Op)
    requires Ok(fs) && Allowed(fs, op)
    ensures var t := Do(fs, op).0;
      Excess(t) == Excess(fs) + Leaked(fs, op) && t.max == fs.max && (fs.space <= fs.max ==> t.space <= t.max)
  {
    DoRefines(fs, op, []);
    hide Ok, View, Excess, Mkdir, Create, Unlink, Rmdir, Truncate, Write;
    match op
    case OpMkdir(cs, raw) => MkdirSpace(fs, cs, raw);
    case OpCreate(cs, regular, raw) => CreateSpace(fs, cs, regular, raw);
    case OpUnlink(cs) => UnlinkSpace(fs, cs);
    case OpRmdir(cs) => RmdirSpace(fs, cs);
    case OpTruncate(cs, size, gap) => TruncateSpace(fs, cs, size, gap);
    case OpWrite(cs, buf, offset, gap) => WriteSpace(fs, cs, buf, offset, gap);
  }

  predicate Legal(fs: Fs, ops: seq<Op>)
    requires Ok(fs)
    decreases |ops|
  {
    ops == [] || (Allowed(fs, ops[0]) && (DoRefines(fs, ops[0], []); Legal(Do(fs, ops[0]).0, ops[1..])))
  }

  function Run(fs: Fs, ops: seq<Op>): (t: Fs)
    requires Ok(fs) && Legal(fs, ops)
    ensures Ok(t)
    decreases |ops|
  {
    if ops == [] then fs
    else
      DoRefines(fs, ops[0], []);
      Run(Do(fs, ops[0]).0, ops[1..])
  }

  function TotalLeaked(fs: Fs, ops: seq<Op>): nat
    requires Ok(fs) && Legal(fs, ops)
    decreases |ops|
  {
    if ops == [] then 0
    else
      DoRefines(fs, ops[0], []);
      Leaked(fs, ops[0]) + TotalLeaked(Do(fs, ops[0]).0, ops[1..])
  }

  // The counter is always the length of the image a flush would write plus what was leaked, and
  // once within the maximum it stays there.
  lemma {:induction false} SpaceAccounting(fs: Fs, ops: seq<Op>)
    requires Ok(fs) && Legal(fs, ops)
    ensures var t := Run(fs, ops);
      && Ok(t) && t.max == fs.max
      && t.space == ImageLength(t) + Excess(fs) + TotalLeaked(fs, ops)
      && (fs.space <= fs.max ==> t.space <= t.max)
    decreases |ops|
  {
    if ops != [] {
      DoRefines(fs, ops[0], []);
      DoSpace(fs, ops[0]);
      hide Ok, Do, Leaked, Allowed;
      SpaceAccounting(Do(fs, ops[0]).0, ops[1..]);
    }
  }

  // A path no operation names shows the same before and after any run.
  lemma {:induction false} Untouched(fs: Fs, ops: seq<Op>, q: seq<Name>)
    requires Ok(fs) && Legal(fs, ops) && forall i :: 0 <= i < |ops| ==> ops[i].cs != q
    ensures View(Run(fs, ops).root, q) == View(fs.root, q)
    decreases |ops|
  {
    if ops != [] {
      DoRefines(fs, ops[0], []);
      DoRefines(fs, ops[0], q);
      hide Ok, Do, View, Allowed;
      Untouched(Do(fs, ops[0]).0, ops[1..], q);
    }
  }
}
