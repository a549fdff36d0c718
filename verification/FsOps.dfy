/**
 * The operations of fisopfs on the tree and the space counter, and what they mean for the map from
 * paths to files and directories (fisopfs/fisopfs.c).
 */
module FsOps {
  import opened FsPaths
  import opened FsTree

  const SIZE_FS := 16            // sizeof(fisopfs_fs_t)
  const SIZE_FILE := 2208        // sizeof(entrada_archivo_t)
  const SIZE_DIR := 2224         // sizeof(entrada_directorio_t)

  const EPERM := 1
  const ENOENT := 2
  const EISDIR := 21
  const EINVAL := 22
  const ENOSPC := 28

  // The global fs. max is MAX_ESPACIO_FS, which never changes.
  datatype Fs = Fs(root: Entry, space: int, max: int)

  // ---- Changing an entry in place --------------------------------------------------------

  // The tree with x at a list of components where there already is an entry.
  function Replace(e: Entry, cs: seq<Name>, x: Entry): (r: Entry)
    requires Find(e, cs).Some?
    ensures cs != [] ==> r.Dir? && e.Dir? && r.head == e.head
    decreases |cs|
  {
    if cs == [] then x
    else
      var i := SlotOf(e.slots, cs[0]);
      e.(slots := e.slots[i := Replace(e.slots[i], cs[1..], x)])
  }

  // What a path shows.
  datatype Node = Absent | Directory | Regular(content: seq<Byte>)

  function Shows(e: Option<Entry>): Node {
    match e
    case None => Absent
    case Some(x) => match x case Vacio => Absent case File(_, content) => Regular(content) case Dir(_, _, _) => Directory
  }

  function View(root: Entry, q: seq<Name>): Node { Shows(Find(root, q)) }

  lemma {:induction false} FindAppend(e: Entry, p: seq<Name>, q: seq<Name>)
    ensures Find(e, p + q) == match Find(e, p) case None => None case Some(x) => Find(x, q)
    decreases |p|
  {
    if p == [] {
      assert p + q == q;
    } else if e.Dir? {
      var i := SlotOf(e.slots, p[0]);
      assert (p + q)[1..] == p[1..] + q;
      if i < |e.slots| {
        FindAppend(e.slots[i], p[1..], q);
      }
    }
  }

  lemma {:induction false} SlotSame(slots: seq<Entry>, i: nat, x: Entry, name: Name)
    requires i < |slots| && !slots[i].Vacio? && !x.Vacio? && x.head.name == slots[i].head.name
    ensures SlotOf(slots[i := x], name) == SlotOf(slots, name)
  {
    if i > 0 {
      SlotSame(slots[1..], i - 1, x, name);
      assert slots[i := x][1..] == slots[1..][i - 1 := x];
    }
  }

  predicate SameName(x: Entry, y: Entry) { !x.Vacio? && !y.Vacio? && x.head.name == y.head.name }

  // A path that leads through cs sees the new entry; any other sees what it saw.
  lemma {:induction false} ReplaceView(e: Entry, cs: seq<Name>, x: Entry, q: seq<Name>)
    requires Find(e, cs).Some? && SameName(Find(e, cs).value, x)
    ensures View(Replace(e, cs, x), q) == if cs <= q then View(x, q[|cs|..]) else View(e, q)
    decreases |cs|
  {
    if cs == [] {
      assert q[0..] == q;
    } else if q != [] {
      var i := SlotOf(e.slots, cs[0]);
      var y := Replace(e.slots[i], cs[1..], x);
      SlotSame(e.slots, i, y, q[0]);
      var j := SlotOf(e.slots, q[0]);
      assert cs <= q <==> cs[0] == q[0] && cs[1..] <= q[1..];
      if j == i {
        ReplaceView(e.slots[i], cs[1..], x, q[1..]);
        assert Named(e.slots[i], q[0]) && Named(e.slots[i], cs[0]);
        if cs <= q {
          assert q[1..][|cs[1..]|..] == q[|cs|..];
        }
      }
    }
  }

  lemma {:induction false} ReplaceGood(e: Entry, cs: seq<Name>, x: Entry)
    requires Good(e) && Find(e, cs).Some? && SameName(Find(e, cs).value, x) && Good(x)
    requires x.Dir? ==> cs == [] || GoodName(x.head.name)
    ensures Good(Replace(e, cs, x))
    decreases |cs|
  {
    if cs != [] {
      var i := SlotOf(e.slots, cs[0]);
      assert Good(e.slots[i]);
      ReplaceGood(e.slots[i], cs[1..], x);
      SwapGood(e, i, Replace(e.slots[i], cs[1..], x));
    }
  }

  lemma {:induction false} FindGood(e: Entry, cs: seq<Name>)
    requires Good(e) && Find(e, cs).Some? && !e.Vacio?
    ensures var x := Find(e, cs).value;
      Good(x) && !x.Vacio? && (cs != [] ==> x.head.name == cs[|cs| - 1] && (x.Dir? ==> GoodName(x.head.name)))
    decreases |cs|
  {
    if cs != [] {
      var i := SlotOf(e.slots, cs[0]);
      assert Good(e.slots[i]);
      FindGood(e.slots[i], cs[1..]);
    }
  }

  // ---- Directories -----------------------------------------------------------------------

  // Entering a new name.
  lemma PlaceView(d: Entry, e: Entry, q: seq<Name>)
    requires d.Dir? && Good(d) && Good(e) && !e.Vacio? && GoodName(e.head.name)
    requires SlotOf(d.slots, e.head.name) == |d.slots|
    ensures Place(d, e).Some?
    ensures View(Place(d, e).value, q) == if q != [] && q[0] == e.head.name then View(e, q[1..]) else View(d, q)
  {
    FullMeans(d.slots);
    if q != [] {
      PlaceSlot(d, e, q[0]);
    }
  }

  lemma PlaceSlot(d: Entry, e: Entry, name: Name)
    requires d.Dir? && !e.Vacio? && EmptySlot(d.slots) < |d.slots| && SlotOf(d.slots, e.head.name) == |d.slots|
    ensures var r := Place(d, e).value; var i := SlotOf(r.slots, name);
      if name == e.head.name then i < |r.slots| && r.slots[i] == e
      else if SlotOf(d.slots, name) < |d.slots| then i < |r.slots| && r.slots[i] == d.slots[SlotOf(d.slots, name)]
      else i == |r.slots|
  {
    var k := EmptySlot(d.slots);
    var r := Place(d, e).value;
    assert r.slots[k] == e;
    assert forall j :: 0 <= j < |d.slots| && j != k ==> r.slots[j] == d.slots[j];
    assert forall j :: |d.slots| <= j < |r.slots| ==> r.slots[j] == Vacio;
    var i, j := SlotOf(r.slots, name), SlotOf(d.slots, name);
    if name == e.head.name {
      assert Named(r.slots[k], name);
    } else if j < |d.slots| {
      assert Named(r.slots[j], name);
    }
  }

  // Removing the only entry of a name.
  lemma VacateView(d: Entry, i: nat, q: seq<Name>)
    requires d.Dir? && Good(d) && i < |d.slots| && d.slots[i] != Vacio && d.occupied > 0
    ensures View(Vacate(d, i), q) == if q != [] && q[0] == d.slots[i].head.name then Absent else View(d, q)
  {
    if q != [] {
      VacateSlot(d, i, q[0]);
    }
  }

  lemma VacateSlot(d: Entry, i: nat, name: Name)
    requires d.Dir? && Good(d) && i < |d.slots| && d.slots[i] != Vacio && d.occupied > 0
    ensures var r := Vacate(d, i);
      SlotOf(r.slots, name) == if name == d.slots[i].head.name then |d.slots| else SlotOf(d.slots, name)
  {
    var r := Vacate(d, i);
    var j, k := SlotOf(d.slots, name), SlotOf(r.slots, name);
    assert Distinct(d.slots);
    assert forall m :: 0 <= m < |d.slots| && m != i ==> r.slots[m] == d.slots[m];
    if k < |r.slots| {
      assert Named(d.slots[k], name);
    }
    if j < |d.slots| && j != i {
      assert Named(r.slots[j], name);
    }
  }

  // ---- The operations --------------------------------------------------------------------

  // FUSE names an entry by a normalised absolute path, given here by its components. A path of
  // exactly MAXIMO_PATH bytes would overrun the buffers it is copied to.
  predicate Called(fs: Fs, cs: seq<Name>) {
    fs.root.Dir? && GoodPath(cs) && |Path(cs)| != MAXIMO_PATH
  }

  function Parent(cs: seq<Name>): seq<Name> { if cs == [] then [] else cs[..|cs| - 1] }

  // FUSE has resolved the parent before it asks for a change in it.
  predicate HasParent(fs: Fs, cs: seq<Name>) { Called(fs, cs) && Find(fs.root, Parent(cs)).Some? }

  lemma ParentFound(fs: Fs, cs: seq<Name>)
    requires HasParent(fs, cs)
    ensures Lookup(fs.root, ParentPath(Path(cs))) == Find(fs.root, Parent(cs))
    ensures FinalName(Path(cs)) == if cs == [] then [] else cs[|cs| - 1]
  {
    if cs != [] {
      ParentAndName(cs);
    }
    LookupIs(fs.root, Parent(cs));
  }

  function ParentEntry(fs: Fs, cs: seq<Name>): (d: Entry)
    requires HasParent(fs, cs)
    ensures Find(fs.root, Parent(cs)) == Some(d)
  {
    ParentFound(fs, cs);
    Lookup(fs.root, ParentPath(Path(cs))).value
  }

  function EntryAt(fs: Fs, cs: seq<Name>): (e: Option<Entry>)
    requires Called(fs, cs)
    ensures e == Find(fs.root, cs)
  {
    LookupIs(fs.root, cs);
    Lookup(fs.root, Path(cs))
  }

  // A new entry e of the given size in the parent of cs.
  function Add(fs: Fs, cs: seq<Name>, e: Entry, size: nat): (Fs, int)
    requires HasParent(fs, cs)
  {
    var d := ParentEntry(fs, cs);
    if !d.Dir? then (fs, -ENOENT)
    else
      match Place(d, e)
      case None => (fs, -ENOENT)
      case Some(d1) => (fs.(root := Replace(fs.root, Parent(cs), d1), space := fs.space + size), 0)
  }

  function Mkdir(fs: Fs, cs: seq<Name>, raw: Raw): (Fs, int)
    requires HasParent(fs, cs)
  {
    if |Path(cs)| > MAXIMO_PATH then (fs, -EINVAL)
    else if fs.space + SIZE_DIR > fs.max then (fs, -ENOSPC)
    else Add(fs, cs, NewDir(FinalName(Path(cs)), raw), SIZE_DIR)
  }

  // regular is S_ISREG of the mode.
  function Create(fs: Fs, cs: seq<Name>, regular: bool, raw: Raw): (Fs, int)
    requires HasParent(fs, cs)
  {
    if |Path(cs)| > MAXIMO_PATH then (fs, -EINVAL)
    else if fs.space + SIZE_FILE > fs.max then (fs, -ENOSPC)
    else if regular then Add(fs, cs, NewFile(FinalName(Path(cs)), raw), SIZE_FILE)
    else (fs, if ParentEntry(fs, cs).Dir? then ENOENT else -ENOENT)
  }

  // The first file (or directory) slot of that name.
  function SlotOfKind(slots: seq<Entry>, name: Name, file: bool): (i: nat)
    ensures i <= |slots| && (i < |slots| ==> Named(slots[i], name) && slots[i].File? == file)
    ensures forall k :: 0 <= k < i ==> !(Named(slots[k], name) && slots[k].File? == file)
  {
    if slots == [] || (Named(slots[0], name) && slots[0].File? == file) then 0 else 1 + SlotOfKind(slots[1..], name, file)
  }

  function Unlink(fs: Fs, cs: seq<Name>): (Fs, int)
    requires HasParent(fs, cs) && Good(fs.root)
  {
    if |Path(cs)| > MAXIMO_PATH then (fs, -EINVAL)
    else
      var d := ParentEntry(fs, cs);
      if !d.Dir? then (fs, -ENOENT)
      else
        var i := SlotOfKind(d.slots, FinalName(Path(cs)), true);
        if i == |d.slots| then (fs, ENOENT)
        else
          FindGood(fs.root, Parent(cs));
          VacateGood(d, i);
          (fs.(root := Replace(fs.root, Parent(cs), Vacate(d, i)), space := fs.space - SIZE_FILE), 0)
  }

  function Rmdir(fs: Fs, cs: seq<Name>): (Fs, int)
    requires HasParent(fs, cs) && Good(fs.root)
  {
    if |Path(cs)| > MAXIMO_PATH then (fs, -EINVAL)
    else
      var d := ParentEntry(fs, cs);
      if !d.Dir? then (fs, -ENOENT)
      else
        var i := SlotOfKind(d.slots, FinalName(Path(cs)), false);
        if i == |d.slots| then (fs, ENOENT)
        else if d.slots[i].occupied != 0 then (fs, -EPERM)
        else
          FindGood(fs.root, Parent(cs));
          VacateGood(d, i);
          (fs.(root := Replace(fs.root, Parent(cs), Vacate(d, i)), space := fs.space - SIZE_DIR), 0)
  }

  function WithContent(e: Entry, content: seq<Byte>): (r: Entry)
    requires e.File?
    ensures r.File? && r.head.name == e.head.name
  {
    File(e.head.(size := |content|), content)
  }

  // A file's bytes after a change of its size; what realloc exposes past the old end is gap.
  function Resized(content: seq<Byte>, size: nat, gap: seq<Byte>): (r: seq<Byte>)
    requires size <= |content| + |gap|
    ensures |r| == size
  {
    if size <= |content| then content[..size] else content + gap[..size - |content|]
  }

  function Truncate(fs: Fs, cs: seq<Name>, size: nat, gap: seq<Byte>): (Fs, int)
    requires Called(fs, cs) && size <= |gap|
  {
    if |Path(cs)| > MAXIMO_PATH then (fs, -EINVAL)
    else
      match EntryAt(fs, cs)
      case None => (fs, -ENOENT)
      case Some(e) =>
        if e.Dir? then (fs, -EISDIR)
        else if !e.File? then (fs, -ENOENT)
        else if size != 0 && fs.space + size - |e.content| > fs.max then (fs, -ENOSPC)
        else
          var e1 := WithContent(e, Resized(e.content, size, gap));
          (fs.(root := Replace(fs.root, cs, e1), space := fs.space - |e.content| + size), 0)
  }

  // The bytes of a file after buf was copied in at offset.
  function Overwritten(content: seq<Byte>, buf: seq<Byte>, offset: nat): (r: seq<Byte>)
    requires offset + |buf| <= |content|
    ensures |r| == |content|
  {
    content[..offset] + buf + content[offset + |buf|..]
  }

  function Write(fs: Fs, cs: seq<Name>, buf: seq<Byte>, offset: nat, gap: seq<Byte>): (Fs, int)
    requires Called(fs, cs) && offset + |buf| <= |gap|
  {
    if |Path(cs)| > MAXIMO_PATH then (fs, -EINVAL)
    else
      match EntryAt(fs, cs)
      case None => (fs, -ENOENT)
      case Some(e) =>
        if e.Dir? then (fs, -EISDIR)
        else if !e.File? then (fs, -ENOENT)
        else
          var end := offset + |buf|;
          if end > |e.content| then
            if fs.space + end - |e.content| > fs.max then (fs, -ENOSPC)
            else
              var e1 := WithContent(e, Overwritten(Resized(e.content, end, gap), buf, offset));
              (fs.(root := Replace(fs.root, cs, e1), space := fs.space - |e.content| + end), |buf|)
          else
            (fs.(root := Replace(fs.root, cs, WithContent(e, Overwritten(e.content, buf, offset)))), |buf|)
  }

  datatype Reply = Data(bytes: seq<Byte>) | Error(code: int)

  // FUSE asks for offsets inside the file only.
  function Read(fs: Fs, cs: seq<Name>, size: nat, offset: nat): Reply
    requires Called(fs, cs)
    requires View(fs.root, cs).Regular? ==> offset <= |View(fs.root, cs).content|
  {
    if |Path(cs)| > MAXIMO_PATH then Error(-EINVAL)
    else
      match EntryAt(fs, cs)
      case None => Error(-ENOENT)
      case Some(e) =>
        if !e.File? then Error(-ENOENT)
        else if offset + size > |e.content| then Data(e.content[offset..])
        else Data(e.content[offset..offset + size])
  }
}
