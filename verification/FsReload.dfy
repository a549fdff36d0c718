/** Saving and loading fisopfs again: nothing changes but the order of empty slots. */
module FsReload {
  import opened FsPaths
  import opened FsTree
  import opened FsOps
  import opened FsView
  import opened FsSpace
  import opened FsImage

  // ---- Saving what was loaded ------------------------------------------------------------

  lemma {:induction false} SaveAppend(a: seq<Entry>, n: nat, at: nat, ptr: Pointers)
    requires forall i :: 0 <= i < |a| ==> Storable(a[i])
    ensures SaveSlots(a + Vacios(n), at, ptr) == SaveSlots(a, at, ptr)
    decreases |a| + n
  {
    hide Storable, HeadBytes, Encode;
    if a == [] {
      if n > 0 {
        assert (a + Vacios(n))[1..] == [] + Vacios(n - 1);
        SaveAppend([], n - 1, at, ptr);
      } else {
        assert a + Vacios(0) == [];
      }
    } else {
      assert (a + Vacios(n))[1..] == a[1..] + Vacios(n);
      SaveAppend(a[1..], n, at + Size(a[0]), ptr);
    }
  }

  lemma {:induction false} CompactStorable(e: Entry)
    requires Storable(e)
    ensures Storable(Compact(e)) && Size(Compact(e)) == Size(e)
    decreases e, 0
  {
    if e.Dir? {
      CompactSlotsStorable(e.slots);
      CompactCount(e.slots);
      var full := CompactSlots(e.slots);
      var n := |e.slots| - |full|;
      OccupiedVacios(full, n);
      AllOccupied(full);
      SizeAppend(full, Vacios(n));
      SizeVacios(n);
    }
  }

  lemma {:induction false} CompactSlotsStorable(slots: seq<Entry>)
    requires forall i :: 0 <= i < |slots| ==> Storable(slots[i])
    ensures forall i :: 0 <= i < |CompactSlots(slots)| ==> Storable(CompactSlots(slots)[i]) && !CompactSlots(slots)[i].Vacio?
    ensures SizeSlots(CompactSlots(slots)) == SizeSlots(slots)
    decreases slots, 1
  {
    if slots != [] {
      CompactSlotsStorable(slots[1..]);
      CompactStorable(slots[0]);
      if slots[0] != Vacio {
        assert CompactSlots(slots)[1..] == CompactSlots(slots[1..]);
      }
    }
  }

  lemma {:induction false} AllOccupied(slots: seq<Entry>)
    requires forall i :: 0 <= i < |slots| ==> !slots[i].Vacio?
    ensures Occupied(slots) == |slots|
  {
    if slots != [] {
      AllOccupied(slots[..|slots| - 1]);
    }
  }

  // Saving a reloaded tree writes the same bytes, given the same raw pointers.
  lemma {:induction false} ResaveEntry(e: Entry, at: nat, ptr: Pointers)
    requires Storable(e) && Storable(Compact(e))
    ensures Save(Compact(e), at, ptr) == Save(e, at, ptr)
    decreases e, 0
  {
    if e.Dir? {
      CompactSlotsStorable(e.slots);
      ResaveSlots(e.slots, at + SIZE_DIR, ptr);
      CompactCount(e.slots);
      SaveAppend(CompactSlots(e.slots), |e.slots| - |CompactSlots(e.slots)|, at + SIZE_DIR, ptr);
    }
  }

  lemma {:induction false} ResaveSlots(slots: seq<Entry>, at: nat, ptr: Pointers)
    requires forall i :: 0 <= i < |slots| ==> Storable(slots[i])
    requires forall i :: 0 <= i < |CompactSlots(slots)| ==> Storable(CompactSlots(slots)[i])
    ensures SaveSlots(CompactSlots(slots), at, ptr) == SaveSlots(slots, at, ptr)
    decreases slots, 1
  {
    hide Save, Size, Compact, Storable;
    if slots != [] {
      var e, more := slots[0], CompactSlots(slots[1..]);
      assert CompactSlots(slots) == if e == Vacio then more else [Compact(e)] + more;
      CompactSlotsStorable(slots[1..]);
      ResaveSlots(slots[1..], at + Size(e), ptr);
      if e == Vacio {
        VacioBytes(at, ptr);
      } else {
        CompactStorable(e);
        ResaveEntry(e, at, ptr);
        SaveFront(Compact(e), more, at, ptr);
      }
    }
  }

  // ---- What paths show after a reload ----------------------------------------------------

  lemma {:induction false} CompactSlot(slots: seq<Entry>, n: nat, name: Name)
    ensures var r := CompactSlots(slots) + Vacios(n); var i := SlotOf(slots, name);
      if i == |slots| then SlotOf(r, name) == |r|
      else SlotOf(r, name) < |r| && r[SlotOf(r, name)] == Compact(slots[i])
    decreases |slots|
  {
    var r := CompactSlots(slots) + Vacios(n);
    if slots == [] {
      assert r == Vacios(n);
    } else {
      CompactSlot(slots[1..], n, name);
      if slots[0] != Vacio {
        assert r[1..] == CompactSlots(slots[1..]) + Vacios(n);
      }
    }
  }

  lemma {:induction false} ReloadView(e: Entry, q: seq<Name>)
    ensures View(Compact(e), q) == View(e, q)
    decreases |q|
  {
    if q != [] && e.Dir? {
      var i := SlotOf(e.slots, q[0]);
      CompactSlot(e.slots, |e.slots| - |CompactSlots(e.slots)|, q[0]);
      if i < |e.slots| {
        ReloadView(e.slots[i], q[1..]);
      }
    }
  }

  lemma {:induction false} CompactNames(slots: seq<Entry>, name: Name)
    requires forall i :: 0 <= i < |slots| ==> !Named(slots[i], name)
    ensures forall i :: 0 <= i < |CompactSlots(slots)| ==> !Named(CompactSlots(slots)[i], name)
  {
    if slots != [] {
      CompactNames(slots[1..], name);
    }
  }

  lemma {:induction false} CompactGood(e: Entry)
    requires Good(e)
    ensures Good(Compact(e))
    decreases e, 0
  {
    if e.Dir? {
      CompactSlotsGood(e.slots);
      CompactCount(e.slots);
      var full := CompactSlots(e.slots);
      OccupiedVacios(full, |e.slots| - |full|);
      AllOccupied(full);
      var slots := full + Vacios(|e.slots| - |full|);
      assert Distinct(slots);
      assert GoodSlots(slots);
      assert |slots| == |e.slots|;
    }
  }

  lemma {:induction false} CompactSlotsGood(slots: seq<Entry>)
    requires GoodSlots(slots) && Distinct(slots)
    ensures GoodSlots(CompactSlots(slots)) && Distinct(CompactSlots(slots))
    ensures forall i :: 0 <= i < |CompactSlots(slots)| ==> !CompactSlots(slots)[i].Vacio?
    decreases slots, 1
  {
    if slots != [] {
      var e := slots[0];
      assert Good(e) && GoodSlots(slots[1..]) && Distinct(slots[1..]);
      CompactSlotsGood(slots[1..]);
      if e != Vacio {
        CompactGood(e);
        CompactNames(slots[1..], e.head.name);
        DistinctFront(Compact(e), CompactSlots(slots[1..]));
      }
    }
  }

  lemma DistinctFront(e: Entry, slots: seq<Entry>)
    requires Distinct(slots) && !e.Vacio? && forall i :: 0 <= i < |slots| ==> !Named(slots[i], e.head.name)
    ensures Distinct([e] + slots)
  {
  }

  // ---- The whole image -------------------------------------------------------------------

  // fisopfs_flush: struct fisopfs_fs, whose first field is a pointer, then the root.
  function Image(fs: Fs, ptr: Pointers): seq<Byte>
    requires Storable(fs.root) && 0 <= fs.space < WORD
  {
    Encode(ptr(0), 8) + Encode(fs.space, 8) + Save(fs.root, SIZE_FS, ptr)
  }

  datatype Mount = Failed | Mounted(fs: Fs, rest: seq<Byte>)

  // fisopfs_init with an existing file.
  function LoadImage(b: seq<Byte>, max: int): Mount {
    if |b| < SIZE_FS then Failed
    else
      match LoadDir(b[SIZE_FS..])
      case Fail => Failed
      case Got(root, rest) => Mount.Mounted(Fs(root, Decode(b[8..16]), max), rest)
  }

  function Reloaded(fs: Fs): Fs { fs.(root := Compact(fs.root)) }

  lemma ImageParts(fs: Fs, ptr: Pointers, suffix: seq<Byte>)
    requires Storable(fs.root) && 0 <= fs.space < WORD
    ensures var b := Image(fs, ptr) + suffix;
      |b| >= SIZE_FS && Decode(b[8..16]) == fs.space && b[SIZE_FS..] == Save(fs.root, SIZE_FS, ptr) + suffix
  {
    hide Storable, Encode, Decode, Save;
    var b := Image(fs, ptr) + suffix;
    WordRound(fs.space);
    assert b[8..16] == Encode(fs.space, 8);
  }

  // Loading a saved file system, whatever follows it and whatever its pointers were, reads exactly
  // the bytes saved, gives the same tree with empty slots last, and saving it again gives the same
  // bytes for the same pointers.
  lemma RoundTrip(fs: Fs, ptr: Pointers, suffix: seq<Byte>)
    requires fs.root.Dir? && Storable(fs.root) && 0 <= fs.space < WORD
    ensures LoadImage(Image(fs, ptr) + suffix, fs.max) == Mount.Mounted(Reloaded(fs), suffix)
    ensures |Image(fs, ptr)| == ImageLength(fs)
    ensures Storable(Reloaded(fs).root) && forall again: Pointers :: Image(Reloaded(fs), again) == Image(fs, again)
  {
    hide Storable, Encode, Decode, Save, LoadDir, Compact, Size;
    SaveLength(fs.root, SIZE_FS, ptr);
    DirRound(fs.root, SIZE_FS, ptr, suffix);
    CompactStorable(fs.root);
    ImageParts(fs, ptr, suffix);
    forall again: Pointers
      ensures Image(Reloaded(fs), again) == Image(fs, again)
    {
      ResaveEntry(fs.root, SIZE_FS, again);
    }
  }

  // The reloaded file system is the same to its users, counter included.
  lemma ReloadSame(fs: Fs, q: seq<Name>)
    requires Ok(fs) && Storable(fs.root)
    ensures var t := Reloaded(fs);
      Ok(t) && View(t.root, q) == View(fs.root, q) && t.space == fs.space && Excess(t) == Excess(fs)
  {
    CompactGood(fs.root);
    CompactStorable(fs.root);
    ReloadView(fs.root, q);
  }
}
