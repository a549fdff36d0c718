/** fisopfs as a map from paths to nodes: every operation changes exactly the path it names. */
module FsView {
  import opened FsPaths
  import opened FsTree
  import opened FsOps

  predicate Ok(fs: Fs) { fs.root.Dir? && Good(fs.root) }

  // ---- Placing and removing in the parent ------------------------------------------------

  lemma FreshSlot(fs: Fs, cs: seq<Name>)
    requires Ok(fs) && HasParent(fs, cs) && View(fs.root, cs) == Absent && Find(fs.root, Parent(cs)).value.Dir?
    ensures cs != [] && SlotOf(Find(fs.root, Parent(cs)).value.slots, cs[|cs| - 1])
                     == |Find(fs.root, Parent(cs)).value.slots|
  {
    var n := |cs| - 1;
    if Find(fs.root, cs).Some? {
      FindGood(fs.root, cs);
    }
    FindLast(fs.root, Parent(cs), cs[n]);
    assert Parent(cs) + [cs[n]] == cs;
  }

  // Nothing is below an entry without entries of its own.
  predicate Leaf(e: Entry) { e.File? || (e.Dir? && forall i :: 0 <= i < |e.slots| ==> e.slots[i] == Vacio) }

  lemma LeafView(e: Entry, q: seq<Name>)
    requires Leaf(e)
    ensures View(e, q) == if q == [] then Shows(Some(e)) else Absent
  {
  }

  lemma AddRefines(fs: Fs, cs: seq<Name>, e: Entry, size: nat, q: seq<Name>)
    requires Ok(fs) && HasParent(fs, cs) && View(fs.root, cs) == Absent
    requires Good(e) && !e.Vacio? && Leaf(e) && cs != [] && e.head.name == cs[|cs| - 1]
    ensures var (t, r) := Add(fs, cs, e, size); var dir := View(fs.root, Parent(cs)) == Directory;
      && r == (if dir then 0 else -ENOENT) && Ok(t) && t.max == fs.max
      && (dir ==> t.space == fs.space + size && View(t.root, q) == if q == cs then Shows(Some(e)) else View(fs.root, q))
      && (!dir ==> t == fs)
  {
    var d := ParentEntry(fs, cs);
    FindGood(fs.root, Parent(cs));
    if d.Dir? {
      FreshSlot(fs, cs);
      AddedView(fs.root, cs, d, e, q);
    }
  }

  lemma AddedView(root: Entry, cs: seq<Name>, d: Entry, e: Entry, q: seq<Name>)
    requires root.Dir? && Good(root) && cs != [] && GoodPath(cs) && Find(root, Parent(cs)) == Some(d) && d.Dir?
    requires Good(e) && !e.Vacio? && Leaf(e) && e.head.name == cs[|cs| - 1] && SlotOf(d.slots, e.head.name) == |d.slots|
    ensures Place(d, e).Some?
    ensures var r := Replace(root, Parent(cs), Place(d, e).value);
      r.Dir? && Good(r) && View(r, q) == if q == cs then Shows(Some(e)) else View(root, q)
  {
    hide Place, SlotOf, Good;
    FindGood(root, Parent(cs));
    var p := Parent(cs);
    assert GoodName(cs[|cs| - 1]);
    PlaceGood(d, e);
    var d1 := Place(d, e).value;
    assert p != [] ==> GoodName(p[|p| - 1]);
    ReplaceGood(root, p, d1);
    ReplaceView(root, p, d1, q);
    if p <= q {
      PlaceView(d, e, q[|p|..]);
      FindAppend(root, p, q[|p|..]);
      assert p + q[|p|..] == q;
      BelowParent(cs, q);
      var r := q[|p|..];
      if r != [] && r[0] == cs[|cs| - 1] {
        LeafView(e, r[1..]);
        NewUnder(root, cs, d, q);
      }
    }
  }

  // Where cs stands among the paths below its parent.
  lemma BelowParent(cs: seq<Name>, q: seq<Name>)
    requires cs != [] && Parent(cs) <= q
    ensures var r := q[|Parent(cs)|..]; q == cs <==> r != [] && r[0] == cs[|cs| - 1] && r[1..] == []
  {
    var p := Parent(cs);
    var r := q[|p|..];
    assert q == p + r && cs == p + [cs[|cs| - 1]];
    if r != [] && r[1..] == [] {
      assert r == [r[0]];
    }
  }

  // Nothing was there, and nothing below it.
  lemma NewUnder(root: Entry, cs: seq<Name>, d: Entry, q: seq<Name>)
    requires cs != [] && Find(root, Parent(cs)) == Some(d) && d.Dir? && SlotOf(d.slots, cs[|cs| - 1]) == |d.slots|
    requires Parent(cs) <= q && q[|Parent(cs)|..] != [] && q[|Parent(cs)|] == cs[|cs| - 1]
    ensures View(root, q) == Absent
  {
    var p := Parent(cs);
    assert p + q[|p|..] == q;
    FindAppend(root, p, q[|p|..]);
  }

  predicate TooLong(cs: seq<Name>) { |Path(cs)| > MAXIMO_PATH }

  lemma FinalNameIs(fs: Fs, cs: seq<Name>)
    requires HasParent(fs, cs) && cs != []
    ensures FinalName(Path(cs)) == cs[|cs| - 1] && GoodName(cs[|cs| - 1])
  {
    ParentFound(fs, cs);
  }

  // mkdir of a fresh path adds exactly that path, as a directory, or changes nothing.
  lemma MkdirRefines(fs: Fs, cs: seq<Name>, raw: Raw, q: seq<Name>)
    requires Ok(fs) && HasParent(fs, cs) && View(fs.root, cs) == Absent
    ensures var (t, r) := Mkdir(fs, cs, raw);
      && Ok(t) && t.max == fs.max
      && r == (if TooLong(cs) then -EINVAL
               else if fs.space + SIZE_DIR > fs.max then -ENOSPC
               else if View(fs.root, Parent(cs)) != Directory then -ENOENT else 0)
      && (r != 0 ==> t == fs)
      && (r == 0 ==> View(t.root, q) == if q == cs then Directory else View(fs.root, q))
  {
    var e := NewDir(FinalName(Path(cs)), raw);
    NewDirGood(FinalName(Path(cs)), raw);
    FinalNameIs(fs, cs);
    hide Add, Path, FinalName, NewDir, Good, View;
    NewDirLeaf(FinalName(Path(cs)), raw);
    AddRefines(fs, cs, e, SIZE_DIR, q);
  }

  lemma NewDirLeaf(name: Name, raw: Raw)
    ensures Leaf(NewDir(name, raw)) && NewDir(name, raw).head.name == name && Shows(Some(NewDir(name, raw))) == Directory
  {
  }

  // create of a fresh path adds exactly that path, as an empty file, or changes nothing.
  lemma CreateRefines(fs: Fs, cs: seq<Name>, regular: bool, raw: Raw, q: seq<Name>)
    requires Ok(fs) && HasParent(fs, cs) && View(fs.root, cs) == Absent
    ensures var (t, r) := Create(fs, cs, regular, raw);
      && Ok(t) && t.max == fs.max
      && r == (if TooLong(cs) then -EINVAL
               else if fs.space + SIZE_FILE > fs.max then -ENOSPC
               else if View(fs.root, Parent(cs)) != Directory then -ENOENT
               else if regular then 0 else ENOENT)
      && (r != 0 ==> t == fs)
      && (r == 0 ==> View(t.root, q) == if q == cs then Regular([]) else View(fs.root, q))
  {
    var e := NewFile(FinalName(Path(cs)), raw);
    FinalNameIs(fs, cs);
    FindGood(fs.root, Parent(cs));
    assert Shows(Some(ParentEntry(fs, cs))) == View(fs.root, Parent(cs));
    hide Add, Path, FinalName;
    AddRefines(fs, cs, e, SIZE_FILE, q);
  }

  // ---- Removing --------------------------------------------------------------------------

  // Names being distinct, the first slot of a name and kind is the slot of that name, or none.
  lemma KindSlot(d: Entry, name: Name, file: bool)
    requires d.Dir? && Distinct(d.slots)
    ensures var i := SlotOf(d.slots, name);
      SlotOfKind(d.slots, name, file) == if i < |d.slots| && d.slots[i].File? == file then i else |d.slots|
  {
    var i, j := SlotOf(d.slots, name), SlotOfKind(d.slots, name, file);
    assert i < |d.slots| ==> forall k :: i < k < |d.slots| ==> !Named(d.slots[k], name);
  }

  lemma RemovedView(root: Entry, cs: seq<Name>, d: Entry, i: nat, q: seq<Name>)
    requires root.Dir? && Good(root) && cs != [] && GoodPath(cs) && Find(root, Parent(cs)) == Some(d) && d.Dir?
    requires i == SlotOf(d.slots, cs[|cs| - 1]) < |d.slots| && Leaf(d.slots[i]) && d.occupied > 0
    ensures var r := Replace(root, Parent(cs), Vacate(d, i));
      r.Dir? && Good(r) && View(r, q) == if q == cs then Absent else View(root, q)
  {
    hide Vacate, SlotOf, Good;
    FindGood(root, Parent(cs));
    var p := Parent(cs);
    VacateGood(d, i);
    var d1 := Vacate(d, i);
    VacateName(d, i);
    assert p != [] ==> GoodName(p[|p| - 1]);
    ReplaceGood(root, p, d1);
    ReplaceView(root, p, d1, q);
    if p <= q {
      var r := q[|p|..];
      VacateView(d, i, r);
      FindAppend(root, p, r);
      assert p + r == q;
      BelowParent(cs, q);
      if r != [] && r[0] == cs[|cs| - 1] {
        LeafView(d.slots[i], r[1..]);
      }
    }
  }

  lemma VacateName(d: Entry, i: nat)
    requires d.Dir? && i < |d.slots| && d.occupied > 0
    ensures Vacate(d, i).Dir? && Vacate(d, i).head == d.head
  {
  }

  // Whether anything is directly below a path.
  ghost predicate HasEntries(fs: Fs, cs: seq<Name>) { exists n: Name :: View(fs.root, cs + [n]) != Absent }

  lemma {:induction false} OccupiedZero(slots: seq<Entry>)
    ensures Occupied(slots) == 0 <==> forall i :: 0 <= i < |slots| ==> slots[i] == Vacio
  {
    if slots != [] {
      OccupiedZero(slots[..|slots| - 1]);
    }
  }

  // The occupied count tells whether a directory has entries.
  lemma EmptyMeans(fs: Fs, cs: seq<Name>, d: Entry)
    requires Ok(fs) && Find(fs.root, cs) == Some(d) && d.Dir?
    ensures Good(d) && (d.occupied == 0 <==> Leaf(d)) && (d.occupied == 0 <==> !HasEntries(fs, cs))
  {
    FindGood(fs.root, cs);
    OccupiedZero(d.slots);
    forall n: Name
      ensures View(fs.root, cs + [n]) != Absent <==> SlotOf(d.slots, n) < |d.slots|
    {
      FindLast(fs.root, cs, n);
    }
    if !Leaf(d) {
      var i :| 0 <= i < |d.slots| && d.slots[i] != Vacio;
      assert Named(d.slots[i], d.slots[i].head.name);
      assert View(fs.root, cs + [d.slots[i].head.name]) != Absent;
    }
  }

  lemma NamelessSlot(d: Entry)
    requires d.Dir? && Good(d)
    ensures SlotOf(d.slots, []) == |d.slots|
  {
    forall i | 0 <= i < |d.slots|
      ensures !Named(d.slots[i], [])
    {
      assert Good(d.slots[i]);
    }
  }

  // What the parent directory knows about the last component.
  lemma InParent(fs: Fs, cs: seq<Name>)
    requires Ok(fs) && HasParent(fs, cs) && ParentEntry(fs, cs).Dir?
    ensures var d := ParentEntry(fs, cs);
      && Good(d)
      && (cs == [] ==> SlotOf(d.slots, FinalName(Path(cs))) == |d.slots|)
      && (cs != [] ==> var i := SlotOf(d.slots, cs[|cs| - 1]);
            FinalName(Path(cs)) == cs[|cs| - 1] && Find(fs.root, cs) == if i == |d.slots| then None else Some(d.slots[i]))
  {
    var d := ParentEntry(fs, cs);
    hide FinalName, Path, ParentPath, Lookup, ParentEntry, Good, SlotOf;
    FindGood(fs.root, Parent(cs));
    ParentFound(fs, cs);
    if cs == [] {
      NamelessSlot(d);
    } else {
      FindLast(fs.root, Parent(cs), cs[|cs| - 1]);
      assert Parent(cs) + [cs[|cs| - 1]] == cs;
    }
  }

  // unlink removes exactly the named file.
  lemma UnlinkRefines(fs: Fs, cs: seq<Name>, q: seq<Name>)
    requires Ok(fs) && HasParent(fs, cs)
    ensures var (t, r) := Unlink(fs, cs);
      && Ok(t) && t.max == fs.max
      && r == (if TooLong(cs) then -EINVAL
               else if View(fs.root, Parent(cs)) != Directory then -ENOENT
               else if View(fs.root, cs).Regular? then 0 else ENOENT)
      && (r != 0 ==> t == fs)
      && (r == 0 ==> View(t.root, q) == if q == cs then Absent else View(fs.root, q))
  {
    hide FinalName, Path, ParentEntry, SlotOfKind, SlotOf, Vacate;
    var d := ParentEntry(fs, cs);
    FindGood(fs.root, Parent(cs));
    if d.Dir? {
      InParent(fs, cs);
      KindSlot(d, FinalName(Path(cs)), true);
      if cs != [] && View(fs.root, cs).Regular? {
        var i := SlotOf(d.slots, cs[|cs| - 1]);
        VacateGood(d, i);
        RemovedView(fs.root, cs, d, i, q);
      }
    }
  }

  // rmdir removes exactly the named directory, and only when nothing is below it.
  lemma RmdirRefines(fs: Fs, cs: seq<Name>, q: seq<Name>)
    requires Ok(fs) && HasParent(fs, cs)
    ensures var (t, r) := Rmdir(fs, cs);
      && Ok(t) && t.max == fs.max
      && r == (if TooLong(cs) then -EINVAL
               else if View(fs.root, Parent(cs)) != Directory then -ENOENT
               else if cs == [] || View(fs.root, cs) != Directory then ENOENT
               else if HasEntries(fs, cs) then -EPERM else 0)
      && (r != 0 ==> t == fs)
      && (r == 0 ==> View(t.root, q) == if q == cs then Absent else View(fs.root, q))
  {
    hide FinalName, Path, ParentEntry, SlotOfKind, SlotOf, Vacate, HasEntries;
    var d := ParentEntry(fs, cs);
    FindGood(fs.root, Parent(cs));
    if d.Dir? {
      InParent(fs, cs);
      KindSlot(d, FinalName(Path(cs)), false);
      if cs != [] && View(fs.root, cs) == Directory {
        var i := SlotOf(d.slots, cs[|cs| - 1]);
        EmptyMeans(fs, cs, d.slots[i]);
        VacateGood(d, i);
        if d.slots[i].occupied == 0 {
          RemovedView(fs.root, cs, d, i, q);
        }
      }
    }
  }

  // ---- Contents --------------------------------------------------------------------------

  lemma FileView(root: Entry, cs: seq<Name>, e: Entry, content: seq<Byte>, q: seq<Name>)
    requires root.Dir? && Good(root) && Find(root, cs) == Some(e) && e.File?
    ensures var r := Replace(root, cs, WithContent(e, content));
      r.Dir? && Good(r) && View(r, q) == if q == cs then Regular(content) else View(root, q)
  {
    FindGood(root, cs);
    var x := WithContent(e, content);
    ReplaceGood(root, cs, x);
    ReplaceView(root, cs, x, q);
    if cs <= q {
      FindAppend(root, cs, q[|cs|..]);
      assert cs + q[|cs|..] == q;
      LeafView(x, q[|cs|..]);
      LeafView(e, q[|cs|..]);
    }
  }

  // truncate gives exactly the named file the new size and keeps the bytes it still has room for.
  lemma TruncateRefines(fs: Fs, cs: seq<Name>, size: nat, gap: seq<Byte>, q: seq<Name>)
    requires Ok(fs) && Called(fs, cs) && size <= |gap|
    ensures var (t, r) := Truncate(fs, cs, size, gap); var n := View(fs.root, cs);
      && Ok(t) && t.max == fs.max
      && r == (if TooLong(cs) then -EINVAL
               else match n
                    case Absent => -ENOENT
                    case Directory => -EISDIR
                    case Regular(c) => if size != 0 && fs.space + size - |c| > fs.max then -ENOSPC else 0)
      && (r != 0 ==> t == fs)
      && (r == 0 ==> n.Regular? && var m := View(t.root, cs);
            && (q != cs ==> View(t.root, q) == View(fs.root, q))
            && m.Regular? && |m.content| == size
            && (forall i :: 0 <= i < size && i < |n.content| ==> m.content[i] == n.content[i]))
  {
    hide Path;
    var e := EntryAt(fs, cs);
    if e.Some? {
      FindGood(fs.root, cs);
      if e.value.File? {
        var content := Resized(e.value.content, size, gap);
        FileView(fs.root, cs, e.value, content, q);
        FileView(fs.root, cs, e.value, content, cs);
      }
    }
  }

  // write puts the buffer at the offset of exactly the named file, which grows if it must, and
  // leaves its other bytes; a gap between the old end and the offset holds unspecified bytes.
  lemma WriteRefines(fs: Fs, cs: seq<Name>, buf: seq<Byte>, offset: nat, gap: seq<Byte>, q: seq<Name>)
    requires Ok(fs) && Called(fs, cs) && offset + |buf| <= |gap|
    ensures var (t, r) := Write(fs, cs, buf, offset, gap); var n := View(fs.root, cs); var end := offset + |buf|;
      && Ok(t) && t.max == fs.max
      && r == (if TooLong(cs) then -EINVAL
               else match n
                    case Absent => -ENOENT
                    case Directory => -EISDIR
                    case Regular(c) => if end > |c| && fs.space + end - |c| > fs.max then -ENOSPC else |buf|)
      && (r < 0 ==> t == fs)
      && (r >= 0 ==> n.Regular? && var m := View(t.root, cs);
            && (q != cs ==> View(t.root, q) == View(fs.root, q))
            && m.Regular? && |m.content| == (if end > |n.content| then end else |n.content|)
            && m.content[offset..end] == buf
            && (forall i :: 0 <= i < |n.content| && !(offset <= i < end) ==> m.content[i] == n.content[i]))
  {
    hide Path, Good, Replace, Overwritten, Resized;
    var e := EntryAt(fs, cs);
    if e.Some? {
      FindGood(fs.root, cs);
      if e.value.File? {
        var c := e.value.content;
        var end := offset + |buf|;
        var base := if end > |c| then Resized(c, end, gap) else c;
        WrittenBytes(c, buf, offset, gap);
        FileView(fs.root, cs, e.value, Overwritten(base, buf, offset), q);
        FileView(fs.root, cs, e.value, Overwritten(base, buf, offset), cs);
      }
    }
  }

  lemma WrittenBytes(c: seq<Byte>, buf: seq<Byte>, offset: nat, gap: seq<Byte>)
    requires offset + |buf| <= |gap|
    ensures var end := offset + |buf|; var base := if end > |c| then Resized(c, end, gap) else c;
      var m := Overwritten(base, buf, offset);
      && |m| == (if end > |c| then end else |c|) && m[offset..end] == buf
      && forall i :: 0 <= i < |c| && !(offset <= i < end) ==> m[i] == c[i]
  {
  }

  // read returns the stored bytes from the offset on, up to the size asked for or the end.
  lemma ReadsView(fs: Fs, cs: seq<Name>, size: nat, offset: nat)
    requires Called(fs, cs) && !TooLong(cs)
    requires View(fs.root, cs).Regular? ==> offset <= |View(fs.root, cs).content|
    ensures var r := Read(fs, cs, size, offset);
      match View(fs.root, cs)
      case Regular(c) =>
        && r.Data? && |r.bytes| == (if offset + size <= |c| then size else |c| - offset)
        && forall i :: 0 <= i < |r.bytes| ==> r.bytes[i] == c[offset + i]
      case _ => r == Error(-ENOENT)
  {
    hide Path;
    assert Shows(EntryAt(fs, cs)) == View(fs.root, cs);
  }

  // What was written is what is read.
  lemma WriteThenRead(fs: Fs, cs: seq<Name>, buf: seq<Byte>, offset: nat, gap: seq<Byte>)
    requires Ok(fs) && Called(fs, cs) && offset + |buf| <= |gap| && Write(fs, cs, buf, offset, gap).1 >= 0
    ensures var t := Write(fs, cs, buf, offset, gap).0;
      Called(t, cs) && View(t.root, cs).Regular? && offset <= |View(t.root, cs).content| &&
      Read(t, cs, |buf|, offset) == Data(buf)
  {
    WriteRefines(fs, cs, buf, offset, gap, cs);
    hide Write, View, Read, Path;
    var t := Write(fs, cs, buf, offset, gap).0;
    ReadsView(t, cs, |buf|, offset);
    var r, c := Read(t, cs, |buf|, offset), View(t.root, cs).content;
    assert forall i :: 0 <= i < |buf| ==> r.bytes[i] == c[offset..offset + |buf|][i];
    assert r.bytes == buf;
  }
}
