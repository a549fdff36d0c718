/**
 * The saved image of fisopfs, byte by byte: the records of struct entrada_archivo and struct
 * entrada_directorio as a 64-bit machine lays them out (fisopfs/entrada_directorio.c,
 * fisopfs/entrada_archivo.c, fisopfs/fisopfs.c).
 */
module FsImage {
  import opened FsPaths
  import opened FsTree
  import opened FsOps
  import opened FsView
  import opened FsSpace

  const HEAD := 2200                 // sizeof(entrada_t)
  const TIPO := 2192                 // offset of tipo in all three structures
  const ARCHIVO := 65
  const DIRECTORIO := 68
  const WORD := 0x1_0000_0000_0000_0000

  type Word = x: int | 0 <= x < WORD

  // The value of a raw pointer field at an offset of the file.
  type Pointers = nat -> Word

  // ---- Integers --------------------------------------------------------------------------

  function Encode(x: nat, n: nat): (b: seq<Byte>)
    ensures |b| == n
  {
    if n == 0 then [] else [x % 256] + Encode(x / 256, n - 1)
  }

  function Decode(b: seq<Byte>): nat {
    if b == [] then 0 else b[0] + 256 * Decode(b[1..])
  }

  function Power(n: nat): nat { if n == 0 then 1 else 256 * Power(n - 1) }

  lemma {:induction false} EncodeDecode(x: nat, n: nat)
    requires x < Power(n)
    ensures Decode(Encode(x, n)) == x
  {
    if n > 0 {
      EncodeDecode(x / 256, n - 1);
      assert Encode(x, n)[1..] == Encode(x / 256, n - 1);
    }
  }

  lemma WordRound(x: Word)
    ensures Decode(Encode(x, 8)) == x
  {
    assert Power(8) == 256 * (256 * (256 * (256 * Power(4))));
    assert Power(4) == 256 * (256 * (256 * (256 * Power(0))));
    EncodeDecode(x, 8);
  }

  // ---- Records ---------------------------------------------------------------------------

  predicate StorableHead(h: Head) {
    && |h.name| < MAXIMO_PATH && (forall k :: 0 <= k < |h.name| ==> h.name[k] != NUL) && h.size < WORD
    && |h.raw.junk| == MAXIMO_PATH - 1 - |h.name|
    && |h.raw.pre| == 48 && |h.raw.post| == 88 && |h.raw.pad| == 7
  }

  // What fits the fields of the structures.
  predicate Storable(e: Entry) {
    match e
    case Vacio => true
    case File(head, content) => StorableHead(head) && head.size == |content|
    case Dir(head, occupied, slots) =>
      && StorableHead(head) && occupied == Occupied(slots) && |slots| < WORD
      && forall i :: 0 <= i < |slots| ==> Storable(slots[i])
  }

  function NameBuffer(h: Head): seq<Byte> { h.name + [NUL] + h.raw.junk }

  function HeadBytes(h: Head, tipo: Byte): (b: seq<Byte>)
    requires StorableHead(h)
    ensures |b| == HEAD
  {
    NameBuffer(h) + h.raw.pre + Encode(h.size, 8) + h.raw.post + [tipo] + h.raw.pad
  }

  // escribir_directorio_en_archivo and escribir_entrada_archivo_en_archivo, from an offset on.
  function Save(e: Entry, at: nat, ptr: Pointers): (b: seq<Byte>)
    requires Storable(e)
    decreases e, 0
  {
    match e
    case Vacio => []
    case File(head, content) => HeadBytes(head, ARCHIVO) + Encode(ptr(at), 8) + content
    case Dir(head, occupied, slots) =>
      HeadBytes(head, DIRECTORIO) + Encode(|slots|, 8) + Encode(occupied, 8) + Encode(ptr(at), 8)
      + SaveSlots(slots, at + SIZE_DIR, ptr)
  }

  function SaveSlots(slots: seq<Entry>, at: nat, ptr: Pointers): (b: seq<Byte>)
    requires forall i :: 0 <= i < |slots| ==> Storable(slots[i])
    decreases slots, 1
  {
    if slots == [] then [] else Save(slots[0], at, ptr) + SaveSlots(slots[1..], at + Size(slots[0]), ptr)
  }

  // ---- Loading ---------------------------------------------------------------------------

  datatype Loaded = Fail | Got(e: Entry, rest: seq<Byte>)
  datatype LoadedSlots = FailSlots | GotSlots(slots: seq<Entry>, rest: seq<Byte>)

  // A name buffer without terminator is not a string.
  function LoadHead(b: seq<Byte>): Option<Head>
    requires |b| >= HEAD
  {
    var name := CString(b[..MAXIMO_PATH]);
    if |name| == MAXIMO_PATH then None
    else
      Some(Head(name, Decode(b[2096..2104]), Raw(b[|name| + 1..MAXIMO_PATH], b[MAXIMO_PATH..2096], b[2104..TIPO], b[TIPO + 1..HEAD])))
  }

  // crear_entrada_archivo_desde_archivo
  function LoadFile(b: seq<Byte>): (r: Loaded)
    ensures r.Got? ==> |r.rest| < |b|
  {
    if |b| < SIZE_FILE then Fail
    else
      match LoadHead(b)
      case None => Fail
      case Some(h) =>
        if |b| - SIZE_FILE < h.size then Fail
        else Got(File(h, b[SIZE_FILE..SIZE_FILE + h.size]), b[SIZE_FILE + h.size..])
  }

  // crear_directorio_desde_archivo. A count above the capacity would overrun the slot array.
  function LoadDir(b: seq<Byte>): (r: Loaded)
    ensures r.Got? ==> |r.rest| < |b|
    decreases |b|, 0
  {
    if |b| < SIZE_DIR then Fail
    else
      match LoadHead(b)
      case None => Fail
      case Some(h) =>
        var capacity, occupied := Decode(b[HEAD..2208]), Decode(b[2208..2216]);
        if occupied > capacity then Fail
        else
          match LoadSlots(b[SIZE_DIR..], occupied)
          case FailSlots => Fail
          case GotSlots(slots, rest) => Got(Dir(h, occupied, slots + Vacios(capacity - occupied)), rest)
  }

  function LoadSlots(b: seq<Byte>, n: nat): (r: LoadedSlots)
    ensures r.GotSlots? ==> |r.rest| <= |b| && |r.slots| == n
    decreases |b|, 2, n
  {
    if n == 0 then GotSlots([], b)
    else if |b| < HEAD then FailSlots
    else
      match LoadEntry(b)
      case Fail => FailSlots
      case Got(e, rest) =>
        match LoadSlots(rest, n - 1)
        case FailSlots => FailSlots
        case GotSlots(slots, rest1) => GotSlots([e] + slots, rest1)
  }

  // The kind of the next record decides how it is read.
  function LoadEntry(b: seq<Byte>): (r: Loaded)
    requires |b| >= HEAD
    ensures r.Got? ==> |r.rest| < |b|
    decreases |b|, 1
  {
    if b[TIPO] == DIRECTORIO then LoadDir(b)
    else if b[TIPO] == ARCHIVO then LoadFile(b)
    else Fail
  }

  // ---- Compaction ------------------------------------------------------------------------

  // What a reload makes of a tree: in every directory the entries first, in order, then the
  // empty slots.
  function Compact(e: Entry): (r: Entry)
    ensures r.Vacio? == e.Vacio? && r.File? == e.File? && (!e.Vacio? ==> r.head == e.head)
    decreases e, 0
  {
    match e
    case Vacio => Vacio
    case File(_, _) => e
    case Dir(head, occupied, slots) =>
      var full := CompactSlots(slots);
      Dir(head, occupied, full + Vacios(|slots| - |full|))
  }

  function CompactSlots(slots: seq<Entry>): (r: seq<Entry>)
    ensures |r| <= |slots|
    decreases slots, 1
  {
    if slots == [] then []
    else if slots[0] == Vacio then CompactSlots(slots[1..])
    else [Compact(slots[0])] + CompactSlots(slots[1..])
  }

  // ---- Round trip ------------------------------------------------------------------------

  lemma {:induction false} SaveLength(e: Entry, at: nat, ptr: Pointers)
    requires Storable(e)
    ensures |Save(e, at, ptr)| == Size(e)
    decreases e, 0
  {
    if e.Dir? {
      SaveSlotsLength(e.slots, at + SIZE_DIR, ptr);
    }
  }

  lemma {:induction false} SaveSlotsLength(slots: seq<Entry>, at: nat, ptr: Pointers)
    requires forall i :: 0 <= i < |slots| ==> Storable(slots[i])
    ensures |SaveSlots(slots, at, ptr)| == SizeSlots(slots)
    decreases slots, 1
  {
    if slots != [] {
      SaveLength(slots[0], at, ptr);
      SaveSlotsLength(slots[1..], at + Size(slots[0]), ptr);
    }
  }

  lemma BufferRound(h: Head)
    requires StorableHead(h)
    ensures |NameBuffer(h)| == MAXIMO_PATH && CString(NameBuffer(h)) == h.name
    ensures NameBuffer(h)[|h.name| + 1..] == h.raw.junk
  {
    var b := NameBuffer(h);
    CStringIs(b, |h.name|);
  }

  lemma HeadRound(h: Head, tipo: Byte, x: seq<Byte>)
    requires StorableHead(h)
    ensures LoadHead(HeadBytes(h, tipo) + x) == Some(h)
    ensures (HeadBytes(h, tipo) + x)[TIPO] == tipo && (HeadBytes(h, tipo) + x)[HEAD..] == x
  {
    var b := HeadBytes(h, tipo) + x;
    var name, size := NameBuffer(h), Encode(h.size, 8);
    BufferRound(h);
    WordRound(h.size);
    hide NameBuffer, Encode, Decode, CString;
    assert b[..MAXIMO_PATH] == name;
    assert b[MAXIMO_PATH..2096] == h.raw.pre;
    assert b[2096..2104] == size;
    assert b[2104..TIPO] == h.raw.post;
    assert b[TIPO + 1..HEAD] == h.raw.pad;
    assert b[|h.name| + 1..MAXIMO_PATH] == name[|h.name| + 1..];
  }

  lemma FileRound(e: Entry, at: nat, ptr: Pointers, x: seq<Byte>)
    requires e.File? && Storable(e)
    ensures LoadEntry(Save(e, at, ptr) + x) == Got(e, x)
  {
    var b := Save(e, at, ptr) + x;
    var tail := Encode(ptr(at), 8) + e.content + x;
    assert b == HeadBytes(e.head, ARCHIVO) + tail;
    hide HeadBytes, LoadHead, Encode;
    HeadRound(e.head, ARCHIVO, tail);
    assert b[SIZE_FILE..SIZE_FILE + |e.content|] == tail[8..8 + |e.content|] == e.content;
    assert b[SIZE_FILE + |e.content|..] == tail[8 + |e.content|..] == x;
  }

  lemma {:induction false} OccupiedFront(slots: seq<Entry>)
    requires slots != []
    ensures Occupied(slots) == (if slots[0] == Vacio then 0 else 1) + Occupied(slots[1..])
  {
    var n := |slots| - 1;
    if n > 0 {
      OccupiedFront(slots[..n]);
      assert slots[..n][1..] == slots[1..][..n - 1];
    } else {
      assert slots[..0] == [] && slots[1..] == [];
    }
  }

  lemma {:induction false} CompactCount(slots: seq<Entry>)
    ensures |CompactSlots(slots)| == Occupied(slots)
  {
    if slots != [] {
      OccupiedFront(slots);
      CompactCount(slots[1..]);
    }
  }

  lemma DirFields(h: Head, capacity: seq<Byte>, occupied: seq<Byte>, pointer: seq<Byte>, below: seq<Byte>)
    requires StorableHead(h) && |capacity| == |occupied| == |pointer| == 8
    ensures var b := HeadBytes(h, DIRECTORIO) + (capacity + occupied + pointer + below);
      && LoadHead(b) == Some(h) && b[HEAD..2208] == capacity && b[2208..2216] == occupied && b[SIZE_DIR..] == below
  {
    var tail := capacity + occupied + pointer + below;
    HeadRound(h, DIRECTORIO, tail);
    hide HeadBytes, LoadHead;
    var b := HeadBytes(h, DIRECTORIO) + tail;
    assert b[HEAD..2208] == tail[..8] == capacity;
    assert b[2208..2216] == tail[8..16] == occupied;
    assert b[SIZE_DIR..] == tail[24..] == below;
  }

  lemma {:induction false} DirRound(e: Entry, at: nat, ptr: Pointers, x: seq<Byte>)
    requires e.Dir? && Storable(e)
    ensures LoadDir(Save(e, at, ptr) + x) == Got(Compact(e), x)
    decreases e, 0
  {
    var below := SaveSlots(e.slots, at + SIZE_DIR, ptr) + x;
    var capacity, occupied, pointer := Encode(|e.slots|, 8), Encode(e.occupied, 8), Encode(ptr(at), 8);
    var b := HeadBytes(e.head, DIRECTORIO) + (capacity + occupied + pointer + below);
    assert Save(e, at, ptr) + x == b;
    WordRound(|e.slots|);
    WordRound(e.occupied);
    hide HeadBytes, LoadHead, Encode, Decode, Save, SaveSlots;
    SlotsRound(e.slots, at + SIZE_DIR, ptr, x);
    CompactCount(e.slots);
    DirFields(e.head, capacity, occupied, pointer, below);
  }

  lemma VacioBytes(at: nat, ptr: Pointers)
    ensures Save(Vacio, at, ptr) == [] && Size(Vacio) == 0
  {
  }

  lemma SaveFront(e: Entry, more: seq<Entry>, at: nat, ptr: Pointers)
    requires Storable(e) && forall i :: 0 <= i < |more| ==> Storable(more[i])
    ensures SaveSlots([e] + more, at, ptr) == Save(e, at, ptr) + SaveSlots(more, at + Size(e), ptr)
  {
    assert ([e] + more)[1..] == more;
  }

  lemma FrontOf(slots: seq<Entry>, at: nat, ptr: Pointers)
    requires forall i :: 0 <= i < |slots| ==> Storable(slots[i])
    ensures if slots == [] then SaveSlots(slots, at, ptr) == [] && CompactSlots(slots) == []
            else
              && SaveSlots(slots, at, ptr) == Save(slots[0], at, ptr) + SaveSlots(slots[1..], at + Size(slots[0]), ptr)
              && CompactSlots(slots) ==
                 if slots[0] == Vacio then CompactSlots(slots[1..]) else [Compact(slots[0])] + CompactSlots(slots[1..])
  {
  }

  lemma LoadNone(x: seq<Byte>)
    ensures LoadSlots(x, 0) == GotSlots([], x) && Occupied([]) == 0
  {
  }

  lemma LoadFront(b: seq<Byte>, n: nat, e: Entry, rest: seq<Byte>, slots: seq<Entry>, x: seq<Byte>)
    requires n > 0 && |b| >= HEAD && LoadEntry(b) == Got(e, rest) && LoadSlots(rest, n - 1) == GotSlots(slots, x)
    ensures LoadSlots(b, n) == GotSlots([e] + slots, x)
  {
  }

  lemma {:induction false} SlotsRound(slots: seq<Entry>, at: nat, ptr: Pointers, x: seq<Byte>)
    requires forall i :: 0 <= i < |slots| ==> Storable(slots[i])
    ensures LoadSlots(SaveSlots(slots, at, ptr) + x, Occupied(slots)) == GotSlots(CompactSlots(slots), x)
    decreases slots, 1
  {
    hide Save, SaveSlots, Size, LoadEntry, LoadSlots, CompactSlots, Compact, Storable, Occupied;
    FrontOf(slots, at, ptr);
    if slots == [] {
      LoadNone(x);
      assert SaveSlots(slots, at, ptr) + x == x;
    } else {
      var e, full := slots[0], CompactSlots(slots[1..]);
      var more := SaveSlots(slots[1..], at + Size(e), ptr) + x;
      assert SaveSlots(slots, at, ptr) + x == Save(e, at, ptr) + more;
      OccupiedFront(slots);
      SlotsRound(slots[1..], at + Size(e), ptr, x);
      if e == Vacio {
        VacioBytes(at, ptr);
        assert Save(e, at, ptr) + more == more;
      } else {
        EntryRound(e, at, ptr, more);
        LoadFront(Save(e, at, ptr) + more, Occupied(slots), Compact(e), more, full, x);
      }
    }
  }

  lemma {:induction false} EntryRound(e: Entry, at: nat, ptr: Pointers, x: seq<Byte>)
    requires Storable(e) && !e.Vacio?
    ensures |Save(e, at, ptr) + x| >= HEAD && LoadEntry(Save(e, at, ptr) + x) == Got(Compact(e), x)
    decreases e, 1
  {
    SaveLength(e, at, ptr);
    if e.File? {
      FileRound(e, at, ptr, x);
    } else {
      DirRound(e, at, ptr, x);
      KindByte(e, at, ptr, x);
    }
  }

  lemma KindByte(e: Entry, at: nat, ptr: Pointers, x: seq<Byte>)
    requires Storable(e) && e.Dir?
    ensures |Save(e, at, ptr) + x| > TIPO && (Save(e, at, ptr) + x)[TIPO] == DIRECTORIO
  {
    var rest := Encode(|e.slots|, 8) + Encode(e.occupied, 8) + Encode(ptr(at), 8) + SaveSlots(e.slots, at + SIZE_DIR, ptr) + x;
    assert Save(e, at, ptr) + x == HeadBytes(e.head, DIRECTORIO) + rest;
    HeadRound(e.head, DIRECTORIO, rest);
  }
}
