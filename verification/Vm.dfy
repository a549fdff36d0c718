/** User address spaces as flat maps over reference-counted frames: the specification of kern/pmap.c. */
module Vm {
  import opened Words

  // The page number vpn of the address space rooted at directory frame d.
  datatype Loc = Loc(d: nat, vpn: nat)

  // Entry pdx of directory d.
  datatype Slot = Slot(d: nat, pdx: nat)

  // ref is pages[].pp_ref, free is the free list from its head; dirs are the frames used as
  // page directories, tabs the page tables by the directory entry that points to them, ptes
  // the present entries, and data the contents of the frames handed out as ordinary pages.
  datatype VM = VM(
    ref: seq<nat>,
    free: seq<nat>,
    dirs: set<nat>,
    tabs: map<Slot, nat>,
    ptes: map<Loc, Word>,
    data: map<nat, Page>)

  function SlotOf(k: Loc): Slot { Slot(k.d, k.vpn / 1024) }

  // The entries that map frame f, and the directory entries that point to it.
  function Maps(m: map<Loc, Word>, f: nat): set<Loc> { set k | k in m && m[k].pn == f }

  function Holds(t: map<Slot, nat>, f: nat): set<Slot> { set s | s in t && t[s] == f }

  // References to f from page tables, directories and environments.
  function Refs(v: VM, f: nat): nat
  {
    |Maps(v.ptes, f)| + |Holds(v.tabs, f)| + (if f in v.dirs then 1 else 0)
  }

  // Tables, directories and ordinary pages are different frames, and every structure hangs
  // from a directory.
  ghost predicate Shape(v: VM)
  {
    && (forall d :: d in v.dirs ==> d < |v.ref| && d !in v.data)
    && (forall s :: s in v.tabs ==>
          s.d in v.dirs && s.pdx < UPDX && v.tabs[s] < |v.ref| && v.tabs[s] !in v.data && v.tabs[s] !in v.dirs)
    && (forall s, s' :: s in v.tabs && s' in v.tabs && v.tabs[s] == v.tabs[s'] ==> s == s')
    && (forall k :: k in v.ptes ==>
          k.d in v.dirs && k.vpn < UVPN && SlotOf(k) in v.tabs && v.ptes[k].fl & 5 == 5 && v.ptes[k].pn in v.data)
    && (forall f :: f in v.data ==> f < |v.ref|)
  }

  // The free list holds no frame twice and none that is in use.
  ghost predicate FreeOk(v: VM)
  {
    && (forall i, j :: 0 <= i < j < |v.free| ==> v.free[i] != v.free[j])
    && (forall i :: 0 <= i < |v.free| ==>
          v.free[i] < |v.ref| && v.free[i] !in v.dirs && v.free[i] !in v.data)
    && (forall i, s :: 0 <= i < |v.free| && s in v.tabs ==> v.tabs[s] != v.free[i])
  }

  // Each count is the number of references, plus those in flight inside a kernel function.
  ghost predicate Counted(v: VM, x: multiset<nat>)
  {
    forall f :: 0 <= f < |v.ref| ==> v.ref[f] == Refs(v, f) + x[f]
  }

  ghost predicate InvX(v: VM, x: multiset<nat>)
  {
    Shape(v) && FreeOk(v) && Counted(v, x) && (forall i :: 0 <= i < |v.free| ==> x[v.free[i]] == 0)
  }

  ghost predicate Inv(v: VM) { InvX(v, multiset{}) }

  // ---- Operations ----

  // pp_ref is a uint16_t.
  function Inc(r: nat): nat { (r + 1) % 65536 }

  function Dec(r: nat): nat { (r + 65535) % 65536 }

  // page_decref: the frame goes to the head of the free list when its count reaches 0.
  function Decref(v: VM, f: nat): (w: VM)
    requires f < |v.ref|
  {
    var r := Dec(v.ref[f]);
    if r == 0 then v.(ref := v.ref[f := 0], free := [f] + v.free, data := v.data - {f})
    else v.(ref := v.ref[f := r])
  }

  // page_alloc(ALLOC_ZERO): the head of the free list becomes an ordinary page.
  function PageAlloc(v: VM): (w: VM)
    requires v.free != []
  {
    v.(free := v.free[1..], data := v.data[v.free[0] := ZeroPage()])
  }

  // pgdir_walk(d, vpn, 1): the table for vpn, taken from the free list when there is none.
  function Walk(v: VM, s: Slot): (w: VM)
    requires s in v.tabs || (v.free != [] && v.free[0] < |v.ref|)
  {
    if s in v.tabs then v
    else
      var t := v.free[0];
      v.(free := v.free[1..], ref := v.ref[t := Inc(v.ref[t])], tabs := v.tabs[s := t])
  }

  // page_remove.
  function Remove(v: VM, k: Loc): (w: VM)
    requires k in v.ptes ==> v.ptes[k].pn < |v.ref|
    ensures w.ptes == v.ptes - {k} && w.tabs == v.tabs && w.dirs == v.dirs && |w.ref| == |v.ref|
  {
    assert k !in v.ptes ==> v.ptes - {k} == v.ptes;
    if k in v.ptes then Decref(v.(ptes := v.ptes - {k}), v.ptes[k].pn) else v
  }

  lemma RemoveInRange(v: VM, k: Loc)
    requires InRange(v)
    ensures k in v.ptes ==> v.ptes[k].pn < |v.ref|
    ensures InRange(Remove(v, k))
  {
    if k in v.ptes {
      DecrefInRange(v.(ptes := v.ptes - {k}), v.ptes[k].pn);
    }
    hide Decref;
  }

  lemma DecrefInRange(v: VM, f: nat)
    requires InRange(v) && f < |v.ref|
    ensures InRange(Decref(v, f))
  {
  }

  predicate CanWalk(v: VM, k: Loc) { SlotOf(k) in v.tabs || v.free != [] }

  // page_insert once the table is there.
  function Put(v: VM, k: Loc, f: nat, perm: Word): (w: VM)
    requires f < |v.ref|
    requires k in v.ptes ==> v.ptes[k].pn < |v.ref|
    ensures w.ptes == v.ptes[k := PteFor(f, perm)] && w.tabs == v.tabs && w.dirs == v.dirs
  {
    var v1 := Remove(v.(ref := v.ref[f := Inc(v.ref[f])]), k);
    v1.(ptes := v1.ptes[k := PteFor(f, perm)])
  }

  predicate InRange(v: VM)
  {
    && (forall k :: k in v.ptes ==> v.ptes[k].pn < |v.ref|)
    && (forall i :: 0 <= i < |v.free| ==> v.free[i] < |v.ref|)
    && (forall s :: s in v.tabs ==> v.tabs[s] < |v.ref|)
  }

  // page_insert: 0, or E_NO_MEM when the table could not be allocated.
  function Insert(v: VM, k: Loc, f: nat, perm: Word): (w: (VM, int))
    requires InRange(v) && f < |v.ref|
  {
    if CanWalk(v, k) then (Put(Walk(v, SlotOf(k)), k, f, perm), 0) else (v, E_NO_MEM)
  }

  // env_setup_vm: a page directory from the free list, with no user entry.
  function NewDir(v: VM): (w: VM)
    requires v.free != [] && v.free[0] < |v.ref|
  {
    var d := v.free[0];
    v.(free := v.free[1..], ref := v.ref[d := Inc(v.ref[d])], dirs := v.dirs + {d})
  }

  // The inner loop of env_free, from entry j of the table of s on.
  function ClearTable(v: VM, s: Slot, j: nat): (w: VM)
    requires j <= 1024 && InRange(v)
    ensures InRange(w) && |w.ref| == |v.ref| && w.tabs == v.tabs && w.dirs == v.dirs
    decreases 1024 - j
  {
    if j == 1024 then v
    else
      RemoveInRange(v, Loc(s.d, 1024 * s.pdx + j));
      ClearTable(Remove(v, Loc(s.d, 1024 * s.pdx + j)), s, j + 1)
  }

  // One turn of the outer loop of env_free.
  function FreeTable(v: VM, s: Slot): (w: VM)
    requires InRange(v)
    ensures InRange(w) && |w.ref| == |v.ref| && w.tabs == v.tabs - {s} && w.dirs == v.dirs
  {
    if s !in v.tabs then v
    else
      var v1 := ClearTable(v, s, 0);
      DecrefInRange(v1.(tabs := v1.tabs - {s}), v.tabs[s]);
      Decref(v1.(tabs := v1.tabs - {s}), v.tabs[s])
  }

  // The outer loop of env_free, from directory entry i on.
  function FreeTables(v: VM, d: nat, i: nat): (w: VM)
    requires i <= UPDX && InRange(v)
    ensures |w.ref| == |v.ref|
    decreases UPDX - i
  {
    if i == UPDX then v else FreeTables(FreeTable(v, Slot(d, i)), d, i + 1)
  }

  // env_free: every user page and table of the directory, then the directory.
  function Teardown(v: VM, d: nat): (w: VM)
    requires InRange(v) && d < |v.ref|
  {
    var v1 := FreeTables(v, d, 0);
    Decref(v1.(dirs := v1.dirs - {d}), d)
  }

  // ---- What operations keep ----

  // No count of a valid state comes near the 16-bit wrap-around.
  ghost predicate Small(v: VM) { forall f :: 0 <= f < |v.ref| ==> v.ref[f] < 65536 }

  // What every operation does to the ordinary pages it does not write: a page keeps its
  // contents, and it leaves data exactly when its count falls to 0.
  ghost predicate Content(v: VM, w: VM)
  {
    && |w.ref| == |v.ref|
    && (forall f :: f in v.data ==> f < |v.ref|)
    && (forall f :: f in w.data ==> f in v.data && w.data[f] == v.data[f])
    && (forall f :: f in v.data ==> (f in w.data <==> (v.ref[f] == 0 || w.ref[f] > 0)))
  }

  // The frames the allocator ever gave out or can give out.
  function Pool(v: VM): set<nat>
  {
    (set f | f in v.free) + v.dirs + v.tabs.Values + v.data.Keys
  }
}
