/**
 * fisopfs in the form of its sources: slot arrays and content arrays overwritten and reallocated in
 * place, a file cursor moved while records are read and written, and the global counter. Each
 * method computes the new state of FsOps, and the operations say what every path shows afterwards.
 */
module FsNodes {
  import opened FsPaths
  import opened FsTree
  import opened FsOps
  import opened FsView
  import opened FsSpace
  import opened FsImage
  import opened FsReload

  // ---- Slot arrays -----------------------------------------------------------------------

  class DirNode {
    const head: Head
    var occupied: nat
    var entries: array<Entry>

    ghost function Value(): Entry
      reads this, entries
    {
      Dir(head, occupied, entries[..])
    }

    // crear_dir
    constructor (name: Name, raw: Raw)
      ensures Value() == NewDir(name, raw) && fresh(entries)
    {
      head := Head(name, 0, raw);
      occupied := 0;
      entries := new Entry[0];
      new;
      assert Value() == Dir(Head(name, 0, raw), 0, []);
      Grow();
    }

    // A directory of the tree as the array it is stored in.
    constructor Open(d: Entry)
      requires d.Dir?
      ensures Value() == d && fresh(entries)
    {
      head := d.head;
      occupied := d.occupied;
      entries := new Entry[|d.slots|](i requires 0 <= i < |d.slots| => d.slots[i]);
      new;
      assert entries[..] == d.slots;
    }

    method Snapshot() returns (d: Entry)
      ensures d == Value()
    {
      d := Dir(head, occupied, entries[..]);
    }

    // llenar_directorio_con_entradas_vacias
    method FillEmpty()
      requires occupied <= entries.Length
      modifies entries
      ensures entries[..] == old(entries[..occupied]) + Vacios(entries.Length - occupied)
    {
      var j := occupied;
      while j < entries.Length
        invariant occupied <= j <= entries.Length
        invariant entries[..j] == old(entries[..occupied]) + Vacios(j - occupied)
      {
        entries[j] := Vacio;
        j := j + 1;
      }
    }

    // expandir_entrdas_dir
    method Grow()
      requires occupied <= entries.Length
      modifies this`entries, entries
      ensures Value() == Expand(old(Value())) && (entries == old(entries) || fresh(entries))
    {
      if entries.Length == occupied {
        var capacity := if entries.Length == 0 then ENTRADAS_INICIALES else entries.Length * MULTIPLICADOR_ENTRADAS;
        var bigger := new Entry[capacity](_ => Vacio);
        var i := 0;
        while i < entries.Length
          invariant 0 <= i <= entries.Length <= bigger.Length
          invariant bigger[..i] == entries[..i]
          modifies bigger
        {
          bigger[i] := entries[i];
          i := i + 1;
        }
        ghost var before := entries[..];
        entries := bigger;
        FillEmpty();
        assert entries[..] == before + Vacios(capacity - |before|);
      }
    }

    // colocar_entrada_dentro_de_directorio
    method Put(e: Entry) returns (ok: bool)
      requires occupied <= entries.Length && (occupied == entries.Length ==> EmptySlot(entries[..]) == entries.Length)
      modifies this, entries
      ensures ok <==> Place(old(Value()), e).Some?
      ensures Value() == if ok then Place(old(Value()), e).value else old(Value())
      ensures entries == old(entries) || fresh(entries)
    {
      var i := 0;
      while i < entries.Length
        invariant 0 <= i <= entries.Length
        invariant forall k :: 0 <= k < i ==> entries[k] != Vacio
      {
        if entries[i].Vacio? {
          assert EmptySlot(entries[..]) == i;
          entries[i] := e;
          occupied := occupied + 1;
          Grow();
          return true;
        }
        i := i + 1;
      }
      assert EmptySlot(entries[..]) == entries.Length;
      return false;
    }

    // The scan of unlink and rmdir: the slot found is left empty, unless it is a directory in use.
    method Clear(name: Name, file: bool) returns (code: int)
      requires forall k :: 0 <= k < entries.Length && entries[k] != Vacio ==> occupied > 0
      modifies this`occupied, entries
      ensures var i := SlotOfKind(old(entries[..]), name, file);
        && code == (if i == entries.Length then ENOENT
                    else if InUse(old(entries[..])[i]) then -EPERM else 0)
        && Value() == if code == 0 then Vacate(old(Value()), i) else old(Value())
    {
      var i := 0;
      while i < entries.Length
        invariant 0 <= i <= entries.Length
        invariant forall k :: 0 <= k < i ==> !(Named(entries[k], name) && entries[k].File? == file)
      {
        if !entries[i].Vacio? && entries[i].File? == file && entries[i].head.name == name {
          assert SlotOfKind(entries[..], name, file) == i;
          if entries[i].Dir? && entries[i].occupied != 0 {
            return -EPERM;
          }
          entries[i] := Vacio;
          occupied := occupied - 1;
          return 0;
        }
        i := i + 1;
      }
      assert SlotOfKind(entries[..], name, file) == entries.Length;
      return ENOENT;
    }

    // The scan of a lookup.
    method IndexOf(name: Name) returns (i: nat)
      ensures i == SlotOf(entries[..], name)
    {
      i := 0;
      while i < entries.Length
        invariant i <= entries.Length
        invariant forall k :: 0 <= k < i ==> !Named(entries[k], name)
      {
        if !entries[i].Vacio? && entries[i].head.name == name {
          assert Named(entries[..][i], name);
          return;
        }
        i := i + 1;
      }
    }
  }

  predicate InUse(e: Entry) { e.Dir? && e.occupied != 0 }

  // A change of the entry at cs, made in the slot array that holds it and seen from the root.
  method WriteBack(e: Entry, cs: seq<Name>, x: Entry) returns (r: Entry)
    requires Find(e, cs).Some?
    ensures r == Replace(e, cs, x)
    decreases |cs|
  {
    if cs == [] {
      return x;
    }
    var dir := new DirNode.Open(e);
    var i := dir.IndexOf(cs[0]);
    var child := WriteBack(dir.entries[i], cs[1..], x);
    dir.entries[i] := child;
    r := dir.Snapshot();
  }

  // ---- File contents ---------------------------------------------------------------------

  class FileNode {
    const head: Head
    var size: nat                 // st_size
    var content: array<Byte>

    ghost predicate Valid()
      reads this
    {
      size <= content.Length
    }

    ghost function Value(): Entry
      requires Valid()
      reads this, content
    {
      File(head.(size := size), content[..size])
    }

    // A file of the tree as the buffer it is stored in.
    constructor Open(e: Entry)
      requires e.File?
      ensures Valid() && Value() == WithContent(e, e.content) && content.Length == |e.content| && fresh(content)
    {
      head := e.head;
      size := |e.content|;
      content := new Byte[|e.content|](i requires 0 <= i < |e.content| => e.content[i]);
      new;
      assert content[..] == e.content;
    }

    method Snapshot() returns (e: Entry)
      requires Valid()
      ensures e == Value()
    {
      e := File(head.(size := size), content[..size]);
    }

    // realloc: what was there is copied as far as it fits, and what comes after it is gap.
    method Realloc(n: nat, gap: seq<Byte>)
      requires Valid() && n <= |gap|
      modifies this`content
      ensures fresh(content) && content[..] == Resized(old(content[..size]), n, gap)
    {
      var bigger := new Byte[n](_ => 0);
      var kept := if n <= size then n else size;
      var i := 0;
      while i < kept
        invariant 0 <= i <= kept
        invariant forall k :: 0 <= k < i ==> bigger[k] == content[k]
        modifies bigger
      {
        bigger[i] := content[i];
        i := i + 1;
      }
      while i < n
        invariant kept <= i <= n
        invariant forall k :: 0 <= k < kept ==> bigger[k] == content[k]
        invariant forall k :: kept <= k < i ==> bigger[k] == gap[k - kept]
        modifies bigger
      {
        bigger[i] := gap[i - kept];
        i := i + 1;
      }
      assert bigger[..] == Resized(content[..size], n, gap);
      content := bigger;
    }

    // memcpy(contenido + offset, buf, size)
    method CopyIn(offset: nat, buf: seq<Byte>)
      requires offset + |buf| <= content.Length
      modifies content
      ensures content[..] == Overwritten(old(content[..]), buf, offset)
    {
      var i := 0;
      while i < |buf|
        invariant 0 <= i <= |buf|
        invariant forall k :: 0 <= k < content.Length ==>
          content[k] == if offset <= k < offset + i then buf[k - offset] else old(content[..])[k]
      {
        content[offset + i] := buf[i];
        i := i + 1;
      }
    }
  }

  // ---- The file --------------------------------------------------------------------------

  class Stream {
    var bytes: seq<Byte>
    var pos: nat

    ghost predicate Valid()
      reads this
    {
      pos <= |bytes|
    }

    ghost function Ahead(): seq<Byte>
      requires Valid()
      reads this
    {
      bytes[pos..]
    }

    constructor (content: seq<Byte>)
      ensures bytes == content && pos == 0 && Valid()
    {
      bytes, pos := content, 0;
    }

    // fwrite at the end of the file.
    method Append(b: seq<Byte>)
      modifies this
      ensures bytes == old(bytes) + b && pos == |bytes|
    {
      bytes := bytes + b;
      pos := |bytes|;
    }

    // fread of one item of n bytes.
    method Fetch(n: nat) returns (ok: bool, b: seq<Byte>)
      requires Valid()
      modifies this`pos
      ensures Valid() && ok == (n <= |old(Ahead())|)
      ensures if ok then b == old(Ahead())[..n] && pos == old(pos) + n else b == [] && pos == old(pos)
    {
      if pos + n <= |bytes| {
        ok, b := true, bytes[pos..pos + n];
        pos := pos + n;
      } else {
        ok, b := false, [];
      }
    }

    // escribir_entrada_archivo_en_archivo
    method WriteFile(e: Entry, ptr: Pointers)
      requires e.File? && Storable(e)
      modifies this
      ensures bytes == old(bytes) + Save(e, |old(bytes)|, ptr)
    {
      var at := |bytes|;
      Append(HeadBytes(e.head, ARCHIVO) + Encode(ptr(at), 8));
      Append(e.content);
    }

    // escribir_directorio_en_archivo: the record of the directory, then its entries.
    method WriteDirectory(e: Entry, ptr: Pointers)
      requires e.Dir? && Storable(e)
      modifies this
      ensures bytes == old(bytes) + Save(e, |old(bytes)|, ptr)
      decreases e, 1
    {
      var at := |bytes|;
      ghost var before := bytes;
      var record := HeadBytes(e.head, DIRECTORIO) + Encode(|e.slots|, 8) + Encode(e.occupied, 8) + Encode(ptr(at), 8);
      Append(record);
      WriteSlots(e.slots, ptr);
      hide Encode, HeadBytes, SaveSlots;
      assert bytes == before + (record + SaveSlots(e.slots, at + SIZE_DIR, ptr));
    }

    method WriteSlots(slots: seq<Entry>, ptr: Pointers)
      requires forall i :: 0 <= i < |slots| ==> Storable(slots[i])
      modifies this
      ensures bytes == old(bytes) + SaveSlots(slots, |old(bytes)|, ptr)
      decreases slots, 0
    {
      hide Save, SaveSlots, Size, Storable;
      ghost var all := bytes + SaveSlots(slots, |bytes|, ptr);
      assert slots[0..] == slots;
      var j := 0;
      while j < |slots|
        invariant 0 <= j <= |slots|
        invariant bytes + SaveSlots(slots[j..], |bytes|, ptr) == all
      {
        SaveNext(slots, j, |bytes|, ptr);
        SaveLength(slots[j], |bytes|, ptr);
        WriteEntry(slots[j], ptr);
        j := j + 1;
      }
      assert slots[j..] == [];
      NoSlots(|bytes|, ptr);
    }

    method WriteEntry(e: Entry, ptr: Pointers)
      requires Storable(e)
      modifies this
      ensures bytes == old(bytes) + Save(e, |old(bytes)|, ptr)
      decreases e, 2
    {
      match e {
        case Dir(_, _, _) => WriteDirectory(e, ptr);
        case File(_, _) => WriteFile(e, ptr);
        case Vacio =>
      }
    }

    // crear_entrada_archivo_desde_archivo
    method ReadFile() returns (r: Option<Entry>)
      requires Valid()
      modifies this`pos
      ensures Valid() && Reads(LoadFile(old(Ahead())), r) && pos >= old(pos) && (r.Some? ==> pos > old(pos))
    {
      ghost var b := Ahead();
      var ok, record := Fetch(SIZE_FILE);
      if !ok {
        return None;
      }
      var head := LoadHead(record);
      assert head == LoadHead(b) by { SameHead(record, b); }
      if head == None {
        return None;
      }
      var ok1, content := Fetch(head.value.size);
      if !ok1 {
        return None;
      }
      assert b[SIZE_FILE..][..head.value.size] == b[SIZE_FILE..SIZE_FILE + head.value.size];
      return Some(File(head.value, content));
    }

    // What a read left behind, when it came back with an entry.
    ghost predicate Reads(spec: Loaded, r: Option<Entry>)
      requires Valid()
      reads this
    {
      match r
      case None => spec == Fail
      case Some(e) => spec == Got(e, Ahead())
    }

    // crear_directorio_desde_archivo
    method ReadDirectory() returns (r: Option<Entry>)
      requires Valid()
      modifies this`pos
      ensures Valid() && Reads(LoadDir(old(Ahead())), r) && pos >= old(pos) && (r.Some? ==> pos > old(pos))
      decreases |bytes| - pos, 0
    {
      ghost var b := Ahead();
      var ok, record := Fetch(SIZE_DIR);
      if !ok {
        return None;
      }
      var head := LoadHead(record);
      assert head == LoadHead(b) by { SameHead(record, b); }
      if head == None {
        return None;
      }
      var capacity, occupied := Decode(record[HEAD..2208]), Decode(record[2208..2216]);
      assert record[HEAD..2208] == b[HEAD..2208] && record[2208..2216] == b[2208..2216];
      if occupied > capacity {
        return None;
      }
      assert Ahead() == b[SIZE_DIR..];
      var slots, done := ReadSlots(occupied);
      if !done {
        return None;
      }
      return Some(Dir(head.value, occupied, slots + Vacios(capacity - occupied)));
    }

    // Its loop over the entries: the kind is read ahead and the cursor set back.
    method ReadSlots(n: nat) returns (slots: seq<Entry>, done: bool)
      requires Valid()
      modifies this`pos
      ensures Valid() && pos >= old(pos)
      ensures LoadSlots(old(Ahead()), n) == if done then GotSlots(slots, Ahead()) else FailSlots
      decreases |bytes| - pos, 2
    {
      ghost var all := LoadSlots(Ahead(), n);
      slots, done := [], true;
      var j := 0;
      while j < n
        invariant 0 <= j <= n && Valid() && pos >= old(pos)
        invariant all == Prefixed(slots, LoadSlots(Ahead(), n - j))
      {
        var e := ReadEntry();
        if e == None {
          return [], false;
        }
        PrefixedNext(slots, e.value, Ahead(), n - j);
        slots := slots + [e.value];
        j := j + 1;
      }
    }

    method ReadEntry() returns (r: Option<Entry>)
      requires Valid()
      modifies this`pos
      ensures Valid() && (r.Some? ==> pos > old(pos) && |old(Ahead())| >= HEAD) && pos >= old(pos)
      ensures if |old(Ahead())| < HEAD then r == None else Reads(LoadEntry(old(Ahead())), r)
      decreases |bytes| - pos, 1
    {
      var ok, record := Fetch(HEAD);
      if !ok {
        return None;
      }
      pos := pos - HEAD;
      if record[TIPO] == DIRECTORIO {
        r := ReadDirectory();
      } else if record[TIPO] == ARCHIVO {
        r := ReadFile();
      } else {
        r := None;
      }
    }
  }

  lemma NoSlots(at: nat, ptr: Pointers)
    ensures SaveSlots([], at, ptr) == []
  {
  }

  lemma SaveNext(slots: seq<Entry>, j: nat, at: nat, ptr: Pointers)
    requires j < |slots| && forall i :: 0 <= i < |slots| ==> Storable(slots[i])
    ensures SaveSlots(slots[j..], at, ptr) == Save(slots[j], at, ptr) + SaveSlots(slots[j + 1..], at + Size(slots[j]), ptr)
  {
    assert slots[j..][1..] == slots[j + 1..];
  }

  lemma SameHead(record: seq<Byte>, b: seq<Byte>)
    requires HEAD <= |record| <= |b| && record == b[..|record|]
    ensures LoadHead(record) == LoadHead(b)
  {
    assert record[..MAXIMO_PATH] == b[..MAXIMO_PATH];
    assert record[2096..2104] == b[2096..2104] && record[2104..TIPO] == b[2104..TIPO] && record[TIPO + 1..HEAD] == b[TIPO + 1..HEAD];
    assert record[MAXIMO_PATH..2096] == b[MAXIMO_PATH..2096];
    var n := |CString(b[..MAXIMO_PATH])|;
    assert n < MAXIMO_PATH ==> record[n + 1..MAXIMO_PATH] == b[n + 1..MAXIMO_PATH];
  }

  ghost function Prefixed(slots: seq<Entry>, r: LoadedSlots): LoadedSlots {
    match r
    case FailSlots => FailSlots
    case GotSlots(more, rest) => GotSlots(slots + more, rest)
  }

  lemma PrefixedNext(slots: seq<Entry>, e: Entry, rest: seq<Byte>, n: nat)
    requires n > 0
    ensures Prefixed(slots + [e], LoadSlots(rest, n - 1)) == Prefixed(slots, Prefixed([e], LoadSlots(rest, n - 1)))
  {
    match LoadSlots(rest, n - 1)
    case FailSlots =>
    case GotSlots(more, _) => assert slots + [e] + more == slots + ([e] + more);
  }

  // ---- The file system -------------------------------------------------------------------

  class FileSystem {
    const max: int
    var root: Entry
    var space: int

    ghost function State(): Fs
      reads this
    {
      Fs(root, space, max)
    }

    // crear_directorio_raiz
    constructor (max: nat, raw: Raw)
      ensures State() == FsSpace.Mounted(max, raw)
    {
      this.max := max;
      root := NewDir([SLASH], raw);
      space := SIZE_FS + SIZE_DIR;
    }

    // encontrar_entrada_rec
    static method FindEntryRec(name: Name, rest: Option<Name>, d: Entry) returns (r: Option<Entry>)
      requires d.Dir?
      ensures r == FindRec(name, rest, d.slots)
      decreases d
    {
      var i := 0;
      while i < |d.slots|
        invariant 0 <= i <= |d.slots|
        invariant forall k :: 0 <= k < i ==> !Named(d.slots[k], name)
      {
        var e := d.slots[i];
        if !e.Vacio? && e.head.name == name {
          assert SlotOf(d.slots, name) == i;
          if rest.Some? && e.Dir? {
            var (next, more) := SplitFirst(rest.value);
            r := FindEntryRec(next, more, e);
            return;
          } else if rest.Some? {
            return None;
          } else {
            return Some(e);
          }
        }
        i := i + 1;
      }
      assert SlotOf(d.slots, name) == |d.slots|;
      return None;
    }

    // encontrar_entrada
    method FindEntry(path: Name) returns (r: Option<Entry>)
      requires root.Dir? && path != []
      ensures r == Lookup(root, path)
    {
      if path == [SLASH] {
        return Some(root);
      }
      var (name, rest) := SplitFirst(path[1..]);
      r := FindEntryRec(name, rest, root);
    }

    // The directory a path is made or removed in, which FUSE knows to exist.
    method FindParent(cs: seq<Name>) returns (d: Entry)
      requires HasParent(State(), cs)
      ensures d == ParentEntry(State(), cs)
    {
      ParentPathNotEmpty(cs);
      ParentFound(State(), cs);
      var e := FindEntry(ParentPath(Path(cs)));
      d := e.value;
    }

    // The end of mkdir and create: the new entry goes into the parent's array.
    method AddEntry(cs: seq<Name>, e: Entry, size: nat) returns (code: int)
      requires Ok(State()) && HasParent(State(), cs)
      modifies this
      ensures (State(), code) == Add(old(State()), cs, e, size)
    {
      hide Path, ParentPath, Lookup, Place, ParentEntry, Replace, Good;
      var d := FindParent(cs);
      FindGood(root, Parent(cs));
      if !d.Dir? {
        return -ENOENT;
      }
      var dir := new DirNode.Open(d);
      var ok := dir.Put(e);
      if !ok {
        return -ENOENT;
      }
      var changed := dir.Snapshot();
      root := WriteBack(root, Parent(cs), changed);
      space := space + size;
      return 0;
    }

    method Mkdir(cs: seq<Name>, raw: Raw) returns (code: int)
      requires Ok(State()) && HasParent(State(), cs)
      modifies this
      ensures (State(), code) == FsOps.Mkdir(old(State()), cs, raw)
    {
      if |Path(cs)| > MAXIMO_PATH {
        return -EINVAL;
      }
      if space + SIZE_DIR > max {
        return -ENOSPC;
      }
      hide Path, FinalName, Add;
      var dir := new DirNode(FinalName(Path(cs)), raw);
      var e := dir.Snapshot();
      code := AddEntry(cs, e, SIZE_DIR);
    }

    method Create(cs: seq<Name>, regular: bool, raw: Raw) returns (code: int)
      requires Ok(State()) && HasParent(State(), cs)
      modifies this
      ensures (State(), code) == FsOps.Create(old(State()), cs, regular, raw)
    {
      if |Path(cs)| > MAXIMO_PATH {
        return -EINVAL;
      }
      if space + SIZE_FILE > max {
        return -ENOSPC;
      }
      if regular {
        code := AddEntry(cs, NewFile(FinalName(Path(cs)), raw), SIZE_FILE);
      } else {
        var d := FindParent(cs);
        code := if d.Dir? then ENOENT else -ENOENT;
      }
    }

    // The end of unlink and rmdir: the scan of the parent's array.
    method RemoveEntry(cs: seq<Name>, file: bool, size: nat) returns (code: int)
      requires Ok(State()) && HasParent(State(), cs)
      modifies this
      ensures (State(), code) == Removed(old(State()), cs, file, size)
    {
      hide Path, ParentPath, Lookup, FinalName, Vacate, Replace, Good, ParentEntry, SlotOfKind;
      var d := FindParent(cs);
      if !d.Dir? {
        return -ENOENT;
      }
      HasRoom(State(), cs);
      CountsEntries(d);
      var dir := new DirNode.Open(d);
      code := dir.Clear(FinalName(Path(cs)), file);
      if code == 0 {
        var changed := dir.Snapshot();
        root := WriteBack(root, Parent(cs), changed);
        space := space - size;
      }
    }

    // unlink: exactly the named file is gone, or nothing changed.
    method Unlink(cs: seq<Name>) returns (code: int)
      requires Ok(State()) && HasParent(State(), cs)
      modifies this
      ensures (State(), code) == FsOps.Unlink(old(State()), cs) && Ok(State())
      ensures code == 0 <==> !TooLong(cs) && View(old(root), Parent(cs)) == Directory && View(old(root), cs).Regular?
      ensures forall q :: View(root, q) == if code == 0 && q == cs then Absent else View(old(root), q)
    {
      hide Path, View, Ok, FsOps.Unlink, Removed, HasParent;
      ghost var s := State();
      UnlinkMeans(s, cs);
      RemovedFile(s, cs);
      if |Path(cs)| > MAXIMO_PATH {
        return -EINVAL;
      }
      code := RemoveEntry(cs, true, SIZE_FILE);
    }

    // rmdir: exactly the named directory is gone, and only if nothing was below it.
    method Rmdir(cs: seq<Name>) returns (code: int)
      requires Ok(State()) && HasParent(State(), cs)
      modifies this
      ensures (State(), code) == FsOps.Rmdir(old(State()), cs) && Ok(State())
      ensures code == 0 <==> !TooLong(cs) && View(old(root), Parent(cs)) == Directory && cs != []
                             && View(old(root), cs) == Directory && !HasEntries(old(State()), cs)
      ensures forall q :: View(root, q) == if code == 0 && q == cs then Absent else View(old(root), q)
    {
      hide Path, View, Ok, FsOps.Rmdir, Removed, HasParent, HasEntries;
      ghost var s := State();
      RmdirMeans(s, cs);
      RemovedDir(s, cs);
      if |Path(cs)| > MAXIMO_PATH {
        return -EINVAL;
      }
      code := RemoveEntry(cs, false, SIZE_DIR);
    }

    // truncate: exactly the named file has the new size, and keeps the bytes that fit.
    method Truncate(cs: seq<Name>, size: nat, gap: seq<Byte>) returns (code: int)
      requires Ok(State()) && Called(State(), cs) && size <= |gap|
      modifies this
      ensures (State(), code) == FsOps.Truncate(old(State()), cs, size, gap) && Ok(State())
      ensures forall q :: q != cs || code != 0 ==> View(root, q) == View(old(root), q)
      ensures code == 0 ==> Kept(View(old(root), cs), View(root, cs), size)
    {
      hide Path, Replace, View, Good, Kept, Lookup;
      TruncateMeans(State(), cs, size, gap);
      if |Path(cs)| > MAXIMO_PATH {
        return -EINVAL;
      }
      PathNotEmpty(cs);
      var e := FindEntry(Path(cs));
      assert e == EntryAt(State(), cs);
      if e.Some? && e.value.Dir? {
        return -EISDIR;
      } else if e.None? || !e.value.File? {
        return -ENOENT;
      }
      var file := new FileNode.Open(e.value);
      if size != 0 {
        if space + size - file.size > max {
          return -ENOSPC;
        }
        file.Realloc(size, gap);
      }
      space := space - file.size;
      space := space + size;
      file.size := size;
      var changed := file.Snapshot();
      assert changed == WithContent(e.value, Resized(e.value.content, size, gap));
      root := WriteBack(root, cs, changed);
      return 0;
    }

    // write: exactly the named file holds the buffer at the offset and its other bytes as before.
    method Write(cs: seq<Name>, buf: seq<Byte>, offset: nat, gap: seq<Byte>) returns (code: int)
      requires Ok(State()) && Called(State(), cs) && offset + |buf| <= |gap|
      modifies this
      ensures (State(), code) == FsOps.Write(old(State()), cs, buf, offset, gap) && Ok(State())
      ensures forall q :: q != cs || code < 0 ==> View(root, q) == View(old(root), q)
      ensures code >= 0 ==> code == |buf| && Holds(View(old(root), cs), View(root, cs), buf, offset)
    {
      hide Path, Replace, View, Good, Holds, Lookup, Overwritten, Resized;
      WriteMeans(State(), cs, buf, offset, gap);
      if |Path(cs)| > MAXIMO_PATH {
        return -EINVAL;
      }
      PathNotEmpty(cs);
      var e := FindEntry(Path(cs));
      assert e == EntryAt(State(), cs);
      if e.Some? && e.value.Dir? {
        return -EISDIR;
      } else if e.None? || !e.value.File? {
        return -ENOENT;
      }
      var file := new FileNode.Open(e.value);
      if offset + |buf| > file.size {
        if space + |buf| + offset - file.size > max {
          return -ENOSPC;
        }
        file.Realloc(offset + |buf|, gap);
        space := space - file.size;
        space := space + |buf| + offset;
        file.size := offset + |buf|;
      }
      ghost var base := file.content[..];
      assert base == if offset + |buf| > |e.value.content| then Resized(e.value.content, offset + |buf|, gap) else e.value.content;
      file.CopyIn(offset, buf);
      var changed := file.Snapshot();
      assert changed == WithContent(e.value, Overwritten(base, buf, offset));
      root := WriteBack(root, cs, changed);
      return |buf|;
    }

    // fisopfs_flush, to an empty file.
    method Flush(ptr: Pointers) returns (image: Stream)
      requires root.Dir? && Storable(root) && 0 <= space < WORD
      ensures fresh(image) && image.bytes == Image(State(), ptr)
    {
      image := new Stream([]);
      image.Append(Encode(ptr(0), 8) + Encode(space, 8));
      image.WriteDirectory(root, ptr);
    }

    // fisopfs_init with an existing file.
    method Init(image: Stream) returns (ok: bool)
      requires image.Valid() && image.pos == 0
      modifies this, image`pos
      ensures match LoadImage(old(image.bytes), max)
        case Failed => !ok
        case Mounted(fs, _) => ok && State() == fs
    {
      ghost var b := image.bytes;
      var got, header := image.Fetch(SIZE_FS);
      if !got {
        return false;
      }
      assert header[8..16] == b[8..16] && image.Ahead() == b[SIZE_FS..];
      space := Decode(header[8..16]);
      var d := image.ReadDirectory();
      if d == None {
        return false;
      }
      root := d.value;
      return true;
    }
  }

  // ---- What the methods promise, on values -----------------------------------------------

  // What unlink and rmdir have in common, past the check of the path's length.
  function Removed(fs: Fs, cs: seq<Name>, file: bool, size: nat): (Fs, int)
    requires Ok(fs) && HasParent(fs, cs)
  {
    var d := ParentEntry(fs, cs);
    if !d.Dir? then (fs, -ENOENT)
    else
      var i := SlotOfKind(d.slots, FinalName(Path(cs)), file);
      if i == |d.slots| then (fs, ENOENT)
      else if InUse(d.slots[i]) then (fs, -EPERM)
      else
        HasRoom(fs, cs);
        VacateGood(d, i);
        (fs.(root := Replace(fs.root, Parent(cs), Vacate(d, i)), space := fs.space - size), 0)
  }

  lemma HasRoom(fs: Fs, cs: seq<Name>)
    requires Ok(fs) && HasParent(fs, cs)
    ensures Good(ParentEntry(fs, cs))
  {
    FindGood(fs.root, Parent(cs));
  }

  lemma CountsEntries(d: Entry)
    requires d.Dir? && Good(d)
    ensures forall k :: 0 <= k < |d.slots| && d.slots[k] != Vacio ==> d.occupied > 0
  {
    OccupiedZero(d.slots);
  }

  lemma RemovedFile(fs: Fs, cs: seq<Name>)
    requires Ok(fs) && HasParent(fs, cs)
    ensures !TooLong(cs) ==> FsOps.Unlink(fs, cs) == Removed(fs, cs, true, SIZE_FILE)
    ensures TooLong(cs) ==> FsOps.Unlink(fs, cs) == (fs, -EINVAL)
  {
    hide Path, ParentEntry, Vacate, Replace, FinalName, SlotOfKind;
  }

  lemma RemovedDir(fs: Fs, cs: seq<Name>)
    requires Ok(fs) && HasParent(fs, cs)
    ensures !TooLong(cs) ==> FsOps.Rmdir(fs, cs) == Removed(fs, cs, false, SIZE_DIR)
    ensures TooLong(cs) ==> FsOps.Rmdir(fs, cs) == (fs, -EINVAL)
  {
    hide Path, ParentEntry, Vacate, Replace, FinalName, SlotOfKind;
  }

  lemma UnlinkMeans(fs: Fs, cs: seq<Name>)
    requires Ok(fs) && HasParent(fs, cs)
    ensures var (t, r) := FsOps.Unlink(fs, cs);
      && Ok(t) && (forall q :: View(t.root, q) == if r == 0 && q == cs then Absent else View(fs.root, q))
      && (r == 0 <==> !TooLong(cs) && View(fs.root, Parent(cs)) == Directory && View(fs.root, cs).Regular?)
  {
    hide Good, View, FsOps.Unlink, HasParent;
    UnlinkRefines(fs, cs, cs);
    forall q ensures var (t, r) := FsOps.Unlink(fs, cs); View(t.root, q) == if r == 0 && q == cs then Absent else View(fs.root, q) {
      UnlinkRefines(fs, cs, q);
    }
  }

  lemma RmdirMeans(fs: Fs, cs: seq<Name>)
    requires Ok(fs) && HasParent(fs, cs)
    ensures var (t, r) := FsOps.Rmdir(fs, cs);
      && Ok(t) && (forall q :: View(t.root, q) == if r == 0 && q == cs then Absent else View(fs.root, q))
      && (r == 0 <==> !TooLong(cs) && View(fs.root, Parent(cs)) == Directory && cs != []
                      && View(fs.root, cs) == Directory && !HasEntries(fs, cs))
  {
    hide Good, View, FsOps.Rmdir, HasParent, HasEntries;
    RmdirRefines(fs, cs, cs);
    forall q ensures var (t, r) := FsOps.Rmdir(fs, cs); View(t.root, q) == if r == 0 && q == cs then Absent else View(fs.root, q) {
      RmdirRefines(fs, cs, q);
    }
  }

  // A file before and after it got a new size.
  predicate Kept(n: Node, m: Node, size: nat) {
    n.Regular? && m.Regular? && |m.content| == size
    && forall i :: 0 <= i < size && i < |n.content| ==> m.content[i] == n.content[i]
  }

  // A file before and after buf was written to it.
  predicate Holds(n: Node, m: Node, buf: seq<Byte>, offset: nat) {
    var end := offset + |buf|;
    n.Regular? && m.Regular? && |m.content| == (if end > |n.content| then end else |n.content|)
    && m.content[offset..end] == buf
    && forall i :: 0 <= i < |n.content| && !(offset <= i < end) ==> m.content[i] == n.content[i]
  }

  lemma TruncateMeans(fs: Fs, cs: seq<Name>, size: nat, gap: seq<Byte>)
    requires Ok(fs) && Called(fs, cs) && size <= |gap|
    ensures var (t, r) := FsOps.Truncate(fs, cs, size, gap);
      && Ok(t) && (forall q :: q != cs || r != 0 ==> View(t.root, q) == View(fs.root, q))
      && (r == 0 ==> Kept(View(fs.root, cs), View(t.root, cs), size))
  {
    hide Ok, View, FsOps.Truncate, Called;
    TruncateRefines(fs, cs, size, gap, cs);
    forall q ensures var (t, r) := FsOps.Truncate(fs, cs, size, gap); q != cs || r != 0 ==> View(t.root, q) == View(fs.root, q) {
      TruncateRefines(fs, cs, size, gap, q);
    }
  }

  lemma WriteMeans(fs: Fs, cs: seq<Name>, buf: seq<Byte>, offset: nat, gap: seq<Byte>)
    requires Ok(fs) && Called(fs, cs) && offset + |buf| <= |gap|
    ensures var (t, r) := FsOps.Write(fs, cs, buf, offset, gap);
      && Ok(t) && (forall q :: q != cs || r < 0 ==> View(t.root, q) == View(fs.root, q))
      && (r >= 0 ==> r == |buf| && Holds(View(fs.root, cs), View(t.root, cs), buf, offset))
  {
    hide Ok, View, FsOps.Write, Called;
    WriteRefines(fs, cs, buf, offset, gap, cs);
    forall q ensures var (t, r) := FsOps.Write(fs, cs, buf, offset, gap); q != cs || r < 0 ==> View(t.root, q) == View(fs.root, q) {
      WriteRefines(fs, cs, buf, offset, gap, q);
    }
  }

  lemma PathNotEmpty(cs: seq<Name>)
    requires GoodPath(cs)
    ensures Path(cs) != []
  {
    if cs != [] {
      JoinRest(cs);
    }
  }

  lemma ParentPathNotEmpty(cs: seq<Name>)
    requires GoodPath(cs)
    ensures ParentPath(Path(cs)) != []
  {
    if cs != [] {
      ParentAndName(cs);
      PathNotEmpty(Parent(cs));
    }
  }
}
