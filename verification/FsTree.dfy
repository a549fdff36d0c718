/**
 * The tree of fisopfs: directories are growable arrays of slots holding files, directories or
 * nothing (fisopfs/entrada_directorio.c, fisopfs/fisopfs.c).
 */
module FsTree {
  import opened FsPaths

  const ENTRADAS_INICIALES := 5
  const MULTIPLICADOR_ENTRADAS := 2

  // What the code does not look at in an entry: the name buffer past its terminator, the fields
  // of struct stat around st_size, and padding.
  datatype Raw = Raw(junk: seq<Byte>, pre: seq<Byte>, post: seq<Byte>, pad: seq<Byte>)

  datatype Head = Head(name: Name, size: nat, raw: Raw)

  // occupied is cantidad_entradas_ocupadas; cantidad_entradas is the number of slots.
  datatype Entry =
    | Vacio
    | File(head: Head, content: seq<Byte>)
    | Dir(head: Head, occupied: nat, slots: seq<Entry>)

  // ---- Slots -----------------------------------------------------------------------------

  predicate Named(e: Entry, name: Name) { !e.Vacio? && e.head.name == name }

  // The first slot with that name, or the number of slots.
  function SlotOf(slots: seq<Entry>, name: Name): (i: nat)
    ensures i <= |slots| && (i < |slots| ==> Named(slots[i], name)) && forall k :: 0 <= k < i ==> !Named(slots[k], name)
  {
    if slots == [] || Named(slots[0], name) then 0 else 1 + SlotOf(slots[1..], name)
  }

  function EmptySlot(slots: seq<Entry>): (i: nat)
    ensures i <= |slots| && (i < |slots| ==> slots[i] == Vacio) && forall k :: 0 <= k < i ==> slots[k] != Vacio
  {
    if slots == [] || slots[0] == Vacio then 0 else 1 + EmptySlot(slots[1..])
  }

  function Occupied(slots: seq<Entry>): (n: nat)
    ensures n <= |slots|
  {
    if slots == [] then 0
    else Occupied(slots[..|slots| - 1]) + if slots[|slots| - 1] == Vacio then 0 else 1
  }

  function Vacios(n: nat): (s: seq<Entry>)
    ensures |s| == n && forall i :: 0 <= i < n ==> s[i] == Vacio
  {
    seq(n, _ => Vacio)
  }

  // expandir_entrdas_dir
  function Expand(d: Entry): (r: Entry)
    requires d.Dir?
    ensures r.Dir? && r.head == d.head && r.occupied == d.occupied && d.slots <= r.slots
  {
    if |d.slots| != d.occupied then d
    else if d.slots == [] then d.(slots := Vacios(ENTRADAS_INICIALES))
    else d.(slots := d.slots + Vacios(|d.slots| * (MULTIPLICADOR_ENTRADAS - 1)))
  }

  // crear_dir
  function NewDir(name: Name, raw: Raw): (r: Entry)
    ensures r.Dir?
  {
    Expand(Dir(Head(name, 0, raw), 0, []))
  }

  // crear_archivo
  function NewFile(name: Name, raw: Raw): Entry { File(Head(name, 0, raw), []) }

  // colocar_entrada_dentro_de_directorio; None when no slot is empty.
  function Place(d: Entry, e: Entry): (r: Option<Entry>)
    requires d.Dir?
    ensures r.Some? ==> r.value.Dir? && r.value.head == d.head
  {
    var i := EmptySlot(d.slots);
    if i == |d.slots| then None
    else Some(Expand(d.(slots := d.slots[i := e], occupied := d.occupied + 1)))
  }

  // ---- Well-formed trees -----------------------------------------------------------------

  predicate Capacity(n: nat) { n == ENTRADAS_INICIALES || (n > ENTRADAS_INICIALES && n % 2 == 0 && Capacity(n / 2)) }

  predicate Distinct(slots: seq<Entry>) {
    forall i, j :: 0 <= i < j < |slots| && !slots[i].Vacio? && !slots[j].Vacio? ==> slots[i].head.name != slots[j].head.name
  }

  // Counts match, every directory has room and no two entries of one have the same name.
  predicate Good(e: Entry) {
    match e
    case Vacio => true
    case File(head, content) => GoodName(head.name) && head.size == |content|
    case Dir(head, occupied, slots) =>
      && head.size == 0 && GoodSlots(slots)
      && occupied == Occupied(slots) < |slots| && Capacity(|slots|) && Distinct(slots)
  }

  predicate GoodSlots(slots: seq<Entry>) {
    forall i :: 0 <= i < |slots| ==> Good(slots[i]) && (slots[i].Dir? ==> GoodName(slots[i].head.name))
  }

  // ---- Counting --------------------------------------------------------------------------

  lemma {:induction false} OccupiedSet(slots: seq<Entry>, i: nat, e: Entry)
    requires i < |slots|
    ensures Occupied(slots[i := e]) == Occupied(slots) - (if slots[i] == Vacio then 0 else 1) + if e == Vacio then 0 else 1
  {
    var n := |slots| - 1;
    if i < n {
      OccupiedSet(slots[..n], i, e);
      assert slots[i := e][..n] == slots[..n][i := e];
    } else {
      assert slots[i := e][..n] == slots[..n];
    }
  }

  lemma {:induction false} OccupiedVacios(slots: seq<Entry>, n: nat)
    ensures Occupied(slots + Vacios(n)) == Occupied(slots)
  {
    if n == 0 {
      assert slots + Vacios(0) == slots;
    } else {
      OccupiedVacios(slots, n - 1);
      assert (slots + Vacios(n))[..|slots| + n - 1] == slots + Vacios(n - 1);
    }
  }

  lemma {:induction false} FullMeans(slots: seq<Entry>)
    ensures Occupied(slots) == |slots| <==> EmptySlot(slots) == |slots|
  {
    if slots != [] {
      var n := |slots| - 1;
      FullMeans(slots[..n]);
      var i, j := EmptySlot(slots), EmptySlot(slots[..n]);
      assert j < n ==> slots[j] == Vacio;
      assert forall k :: 0 <= k < n ==> slots[..n][k] == slots[k];
    }
  }

  lemma ExpandGood(d: Entry)
    requires d.Dir? && d.head.size == 0 && GoodSlots(d.slots) && Distinct(d.slots)
    requires d.occupied == Occupied(d.slots) && Capacity(|d.slots|)
    ensures Good(Expand(d))
  {
    OccupiedVacios(d.slots, |d.slots|);
    assert (2 * |d.slots|) / 2 == |d.slots|;
  }

  lemma DistinctPlaced(slots: seq<Entry>, i: nat, e: Entry)
    requires i < |slots| && Distinct(slots) && !e.Vacio? && SlotOf(slots, e.head.name) == |slots|
    ensures Distinct(slots[i := e])
  {
    assert forall k :: 0 <= k < |slots| ==> !Named(slots[k], e.head.name);
  }

  // A well-formed directory takes one more entry of a new name and stays well-formed.
  lemma PlaceGood(d: Entry, e: Entry)
    requires d.Dir? && Good(d) && Good(e) && !e.Vacio? && GoodName(e.head.name)
    requires SlotOf(d.slots, e.head.name) == |d.slots|
    ensures Place(d, e).Some? && Good(Place(d, e).value)
  {
    FullMeans(d.slots);
    var i := EmptySlot(d.slots);
    OccupiedSet(d.slots, i, e);
    DistinctPlaced(d.slots, i, e);
    hide Occupied, Capacity, Distinct, Expand, EmptySlot, SlotOf;
    ExpandGood(d.(slots := d.slots[i := e], occupied := d.occupied + 1));
  }

  lemma NewDirGood(name: Name, raw: Raw)
    ensures Good(NewDir(name, raw))
  {
    OccupiedVacios([], ENTRADAS_INICIALES);
    assert [] + Vacios(5) == Vacios(5);
  }

  // Freeing a slot.
  function Vacate(d: Entry, i: nat): Entry
    requires d.Dir? && i < |d.slots| && d.occupied > 0
  {
    d.(slots := d.slots[i := Vacio], occupied := d.occupied - 1)
  }

  lemma VacateGood(d: Entry, i: nat)
    requires d.Dir? && Good(d) && i < |d.slots| && d.slots[i] != Vacio
    ensures d.occupied > 0 && Good(Vacate(d, i))
  {
    OccupiedSet(d.slots, i, Vacio);
  }

  // Replacing an entry by one of the same name.
  lemma SwapGood(d: Entry, i: nat, e: Entry)
    requires d.Dir? && Good(d) && i < |d.slots| && d.slots[i] != Vacio
    requires Good(e) && !e.Vacio? && e.head.name == d.slots[i].head.name
    ensures Good(d.(slots := d.slots[i := e]))
  {
    OccupiedSet(d.slots, i, e);
    assert Good(d.slots[i]);
  }

  // ---- Lookup ----------------------------------------------------------------------------

  // encontrar_entrada_rec: name is looked for here, what follows the slash in what it names.
  function FindRec(name: Name, rest: Option<Name>, slots: seq<Entry>): Option<Entry>
    decreases slots
  {
    var i := SlotOf(slots, name);
    if i == |slots| then None
    else if rest.None? then Some(slots[i])
    else if slots[i].Dir? then
      var (next, more) := SplitFirst(rest.value);
      FindRec(next, more, slots[i].slots)
    else None
  }

  // encontrar_entrada
  function Lookup(root: Entry, path: Name): Option<Entry>
    requires root.Dir? && path != []
  {
    if path == [SLASH] then Some(root)
    else
      var (name, rest) := SplitFirst(path[1..]);
      FindRec(name, rest, root.slots)
  }

  // The entry at a list of components.
  function Find(e: Entry, cs: seq<Name>): Option<Entry>
    decreases |cs|
  {
    if cs == [] then Some(e)
    else if !e.Dir? then None
    else
      var i := SlotOf(e.slots, cs[0]);
      if i == |e.slots| then None else Find(e.slots[i], cs[1..])
  }

  lemma {:induction false} FindRecIs(cs: seq<Name>, d: Entry)
    requires d.Dir? && cs != [] && GoodPath(cs)
    ensures FindRec(cs[0], if |cs| == 1 then None else Some(Rest(cs[1..])), d.slots) == Find(d, cs)
    decreases |cs|
  {
    var i := SlotOf(d.slots, cs[0]);
    if i < |d.slots| && |cs| > 1 && d.slots[i].Dir? {
      SplitsFirst(cs[1..]);
      FindRecIs(cs[1..], d.slots[i]);
    }
  }

  // Looking up a path component by component from its first slash on.
  lemma LookupIs(root: Entry, cs: seq<Name>)
    requires root.Dir? && GoodPath(cs)
    ensures Lookup(root, Path(cs)) == Find(root, cs)
  {
    if cs != [] {
      NonRootPath(cs);
      JoinRest(cs);
      SplitsFirst(cs);
      FindRecIs(cs, root);
      assert Path(cs)[1..] == Rest(cs);
    }
  }

  lemma {:induction false} FindLast(e: Entry, cs: seq<Name>, name: Name)
    ensures Find(e, cs + [name]) ==
      match Find(e, cs)
      case None => None
      case Some(d) =>
        if !d.Dir? then None
        else
          var i := SlotOf(d.slots, name);
          if i == |d.slots| then None else Some(d.slots[i])
    decreases |cs|
  {
    if cs == [] {
      assert cs + [name] == [name];
    } else if e.Dir? {
      var i := SlotOf(e.slots, cs[0]);
      assert (cs + [name])[1..] == cs[1..] + [name];
      if i < |e.slots| {
        FindLast(e.slots[i], cs[1..], name);
      }
    }
  }

  // First-slash lookup of a path finds what its last component names in the directory its
  // last-slash parent finds.
  lemma LookupByParent(root: Entry, cs: seq<Name>)
    requires root.Dir? && cs != [] && GoodPath(cs)
    ensures Lookup(root, Path(cs)) ==
      match Lookup(root, ParentPath(Path(cs)))
      case None => None
      case Some(d) => if d.Dir? then FindRec(FinalName(Path(cs)), None, d.slots) else None
  {
    hide Path, ParentPath, FinalName, Lookup, SlotOf;
    var n := |cs| - 1;
    ParentAndName(cs);
    LookupIs(root, cs);
    LookupIs(root, cs[..n]);
    FindLast(root, cs[..n], cs[n]);
    assert cs[..n] + [cs[n]] == cs;
  }
}
