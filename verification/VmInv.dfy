/** The reference-count invariant of the frame allocator, and page_insert as an update of one key. */
module VmInv {
  import opened Words
  import opened Vm

  // ---- Counting ----

  lemma MapsInsert(m: map<Loc, Word>, k: Loc, w: Word, f: nat)
    requires k !in m
    ensures |Maps(m[k := w], f)| == |Maps(m, f)| + (if w.pn == f then 1 else 0)
  {
    assert Maps(m[k := w], f) == Maps(m, f) + (if w.pn == f then {k} else {});
  }

  lemma MapsRemove(m: map<Loc, Word>, k: Loc, f: nat)
    requires k in m
    ensures |Maps(m, f)| == |Maps(m - {k}, f)| + (if m[k].pn == f then 1 else 0)
  {
    assert Maps(m, f) == Maps(m - {k}, f) + (if m[k].pn == f then {k} else {});
  }

  lemma HoldsInsert(t: map<Slot, nat>, s: Slot, g: nat, f: nat)
    requires s !in t
    ensures |Holds(t[s := g], f)| == |Holds(t, f)| + (if g == f then 1 else 0)
  {
    assert Holds(t[s := g], f) == Holds(t, f) + (if g == f then {s} else {});
  }

  lemma HoldsRemove(t: map<Slot, nat>, s: Slot, f: nat)
    requires s in t
    ensures |Holds(t, f)| == |Holds(t - {s}, f)| + (if t[s] == f then 1 else 0)
  {
    assert Holds(t, f) == Holds(t - {s}, f) + (if t[s] == f then {s} else {});
  }

  // Nothing refers to a frame that is neither a page, a table nor a directory.
  lemma Unreferenced(v: VM, f: nat)
    requires Shape(v) && f !in v.data && f !in v.dirs
    requires forall s :: s in v.tabs ==> v.tabs[s] != f
    ensures Refs(v, f) == 0
  {
    assert Maps(v.ptes, f) == {};
    assert Holds(v.tabs, f) == {};
  }

  // A free frame has count 0 and nothing points to it.
  lemma FreeUnreferenced(v: VM, i: nat)
    requires Inv(v) && i < |v.free|
    ensures v.ref[v.free[i]] == 0 && Refs(v, v.free[i]) == 0
    ensures forall k :: k in v.ptes ==> v.ptes[k].pn != v.free[i]
  {
    Unreferenced(v, v.free[i]);
  }

  // ---- The invariant is kept ----

  lemma WalkKeeps(v: VM, x: multiset<nat>, k: Loc)
    requires InvX(v, x) && k.d in v.dirs && k.vpn < UVPN && CanWalk(v, k)
    ensures InvX(Walk(v, SlotOf(k)), x)
  {
    var s := SlotOf(k);
    if s !in v.tabs {
      var t := v.free[0];
      var w := Walk(v, s);
      Unreferenced(v, t);
      WalkShape(v, s);
      hide Shape, FreeOk;
      forall f | 0 <= f < |v.ref|
        ensures w.ref[f] == Refs(w, f) + x[f]
      {
        HoldsInsert(v.tabs, s, t, f);
      }
    }
  }

  lemma WalkShape(v: VM, s: Slot)
    requires Shape(v) && FreeOk(v) && s !in v.tabs && s.d in v.dirs && s.pdx < UPDX && v.free != []
    ensures Shape(Walk(v, s)) && FreeOk(Walk(v, s))
  {
  }

  function Release(v: VM, f: nat): VM
    requires f < |v.ref|
  {
    v.(ref := v.ref[f := 0], free := [f] + v.free, data := v.data - {f})
  }

  lemma ReleaseOk(v: VM, f: nat)
    requires Shape(v) && FreeOk(v) && f < |v.ref| && Refs(v, f) == 0
    requires forall i :: 0 <= i < |v.free| ==> v.free[i] != f
    ensures Shape(Release(v, f)) && FreeOk(Release(v, f))
  {
    var w := Release(v, f);
    assert Maps(v.ptes, f) == {};
    assert forall k :: k in v.ptes && v.ptes[k].pn == f ==> k in Maps(v.ptes, f);
    assert Holds(v.tabs, f) == {};
    assert forall s :: s in v.tabs && v.tabs[s] == f ==> s in Holds(v.tabs, f);
    assert Shape(w);
    assert forall i :: 0 < i < |w.free| ==> w.free[i] == v.free[i - 1];
  }

  // The last reference in flight is dropped: the frame becomes free.
  lemma ReleaseKeeps(v: VM, x: multiset<nat>, f: nat)
    requires InvX(v, x + multiset{f}) && f < |v.ref| && v.ref[f] == 1
    ensures InvX(Release(v, f), x)
  {
    var w := Release(v, f);
    assert forall g :: (x + multiset{f})[g] == x[g] + (if g == f then 1 else 0);
    assert Refs(v, f) == 0 && x[f] == 0;
    ReleaseOk(v, f);
    assert forall g :: 0 <= g < |v.ref| ==> Refs(w, g) == Refs(v, g);
    assert forall i :: 0 < i < |w.free| ==> w.free[i] == v.free[i - 1];
  }

  // A reference in flight is dropped and others remain.
  lemma DropKeeps(v: VM, x: multiset<nat>, f: nat)
    requires InvX(v, x + multiset{f}) && f < |v.ref| && v.ref[f] > 1
    ensures InvX(v.(ref := v.ref[f := v.ref[f] - 1]), x)
  {
    var w := v.(ref := v.ref[f := v.ref[f] - 1]);
    forall g | 0 <= g < |v.ref|
      ensures w.ref[g] == Refs(w, g) + x[g]
    {
      assert (x + multiset{f})[g] == x[g] + (if g == f then 1 else 0);
    }
    forall i | 0 <= i < |v.free| ensures x[v.free[i]] == 0 {
      assert (x + multiset{f})[v.free[i]] == 0;
    }
  }

  // A reference in flight is dropped; the frame becomes free exactly when it was the last one.
  lemma DecrefKeeps(v: VM, x: multiset<nat>, f: nat)
    requires InvX(v, x + multiset{f}) && f < |v.ref| && v.ref[f] < 65536
    ensures InvX(Decref(v, f), x)
    ensures Decref(v, f).free == if Refs(v, f) + x[f] == 0 then [f] + v.free else v.free
  {
    hide InvX, Refs;
    InFlight(v, x, f);
    if v.ref[f] == 1 {
      ReleaseKeeps(v, x, f);
    } else {
      DropKeeps(v, x, f);
    }
  }

  lemma InFlight(v: VM, x: multiset<nat>, f: nat)
    requires InvX(v, x + multiset{f}) && f < |v.ref|
    ensures v.ref[f] == Refs(v, f) + x[f] + 1
  {
    assert (x + multiset{f})[f] == x[f] + 1;
  }

  // Taking an entry out leaves its reference in flight.
  lemma TakeKeeps(v: VM, x: multiset<nat>, k: Loc)
    requires InvX(v, x) && k in v.ptes
    ensures InvX(v.(ptes := v.ptes - {k}), x + multiset{v.ptes[k].pn})
  {
    var w := v.(ptes := v.ptes - {k});
    var f := v.ptes[k].pn;
    forall g | 0 <= g < |v.ref|
      ensures w.ref[g] == Refs(w, g) + (x + multiset{f})[g]
    {
      MapsRemove(v.ptes, k, g);
    }
  }

  lemma RemoveKeeps(v: VM, x: multiset<nat>, k: Loc)
    requires InvX(v, x)
    requires Small(v)
    ensures InvX(Remove(v, k), x) && Small(Remove(v, k)) && Content(v, Remove(v, k))
  {
    if k in v.ptes {
      TakeKeeps(v, x, k);
      DecrefKeeps(v.(ptes := v.ptes - {k}), x, v.ptes[k].pn);
    }
  }

  lemma AllocKeeps(v: VM, x: multiset<nat>)
    requires InvX(v, x) && v.free != []
    ensures InvX(PageAlloc(v), x)
  {
    var w := PageAlloc(v);
    forall g | 0 <= g < |v.ref|
      ensures w.ref[g] == Refs(w, g) + x[g]
    {
    }
  }

  // Adding an entry uses a reference in flight.
  lemma GiveCounted(v: VM, x: multiset<nat>, k: Loc, w: Word)
    requires Counted(v, x + multiset{w.pn}) && k !in v.ptes
    ensures Counted(v.(ptes := v.ptes[k := w]), x)
  {
    var u := v.(ptes := v.ptes[k := w]);
    forall g | 0 <= g < |v.ref|
      ensures u.ref[g] == Refs(u, g) + x[g]
    {
      MapsInsert(v.ptes, k, w, g);
      assert (x + multiset{w.pn})[g] == x[g] + (if g == w.pn then 1 else 0);
    }
  }

  lemma GiveKeeps(v: VM, x: multiset<nat>, k: Loc, w: Word)
    requires InvX(v, x + multiset{w.pn}) && k !in v.ptes && k.d in v.dirs && k.vpn < UVPN && SlotOf(k) in v.tabs
    requires w.fl & 5 == 5 && w.pn in v.data
    ensures InvX(v.(ptes := v.ptes[k := w]), x)
  {
    GiveCounted(v, x, k, w);
    hide Counted;
    assert forall i :: 0 <= i < |v.free| ==> (x + multiset{w.pn})[v.free[i]] == 0;
  }

  // pp_ref++ puts a reference in flight.
  lemma PinKeeps(v: VM, f: nat)
    requires Inv(v) && f in v.data
    ensures InvX(v.(ref := v.ref[f := v.ref[f] + 1]), multiset{f})
  {
    var w := v.(ref := v.ref[f := v.ref[f] + 1]);
    forall g | 0 <= g < |w.ref|
      ensures w.ref[g] == Refs(w, g) + multiset{f}[g]
    {
    }
  }

  // The page_remove inside page_insert: the frame being inserted is pinned, so it is not
  // freed even when the entry removed was its only one.
  lemma PinnedRemove(v: VM, k: Loc, f: nat)
    requires Inv(v) && Small(v) && f in v.data && v.ref[f] < 65535
    ensures var w := Remove(v.(ref := v.ref[f := v.ref[f] + 1]), k);
            InvX(w, multiset{f}) && Small(w) && Content(v, w) && f in w.data
            && w.ptes == v.ptes - {k} && w.tabs == v.tabs && w.dirs == v.dirs
  {
    var v1 := v.(ref := v.ref[f := v.ref[f] + 1]);
    PinKeeps(v, f);
    RemoveKeeps(v1, multiset{f}, k);
    assert Counted(Remove(v1, k), multiset{f});
  }

  lemma PteForFlags(f: nat, perm: Word)
    requires NamesFrame(f, perm) && perm.fl & 4 != 0
    ensures PteFor(f, perm) == Word(f, perm.fl | PTE_P) && (perm.fl | PTE_P) & 5 == 5
  {
  }

  // Mapping f at k leaves its 16-bit count right: there is room for one more, or k maps f already.
  predicate Fits(v: VM, k: Loc, f: nat) {
    f < |v.ref| && (v.ref[f] < 65535 || (k in v.ptes && v.ptes[k].pn == f))
  }

  // Mapping f where it is mapped: the count goes up and down again, over the wrap-around if need be.
  lemma PutSame(v: VM, k: Loc, f: nat, perm: Word)
    requires f < |v.ref| && 0 < v.ref[f] < 65536 && k in v.ptes && v.ptes[k].pn == f
    ensures Put(v, k, f, perm) == v.(ptes := v.ptes[k := PteFor(f, perm)])
  {
    assert Dec(Inc(v.ref[f])) == v.ref[f];
    assert v.ref[f := Inc(v.ref[f])][f := v.ref[f]] == v.ref;
    assert (v.ptes - {k})[k := PteFor(f, perm)] == v.ptes[k := PteFor(f, perm)];
  }

  lemma PutSameKeeps(v: VM, k: Loc, f: nat, perm: Word)
    requires Inv(v) && Small(v) && k in v.ptes && v.ptes[k].pn == f && f in v.data
    requires NamesFrame(f, perm) && perm.fl & 4 != 0
    ensures f < |v.ref| && InRange(v) && Inv(Put(v, k, f, perm)) && Small(Put(v, k, f, perm))
    ensures Content(v, Put(v, k, f, perm)) && f in Put(v, k, f, perm).data
    ensures Put(v, k, f, perm) == v.(ptes := v.ptes[k := PteFor(f, perm)])
  {
    assert k in Maps(v.ptes, f);
    PutSame(v, k, f, perm);
    PteForFlags(f, perm);
    var u := v.(ptes := v.ptes - {k});
    TakeKeeps(v, multiset{}, k);
    GiveKeeps(u, multiset{}, k, PteFor(f, perm));
    assert (v.ptes - {k})[k := PteFor(f, perm)] == v.ptes[k := PteFor(f, perm)];
  }

  lemma PutSteps(v: VM, k: Loc, f: nat, perm: Word)
    requires f < |v.ref| && v.ref[f] < 65535
    requires k in v.ptes ==> v.ptes[k].pn < |v.ref|
    ensures var v2 := Remove(v.(ref := v.ref[f := v.ref[f] + 1]), k);
            Put(v, k, f, perm) == v2.(ptes := v2.ptes[k := PteFor(f, perm)])
  {
    assert Inc(v.ref[f]) == v.ref[f] + 1;
  }

  // page_insert on an existing table: one key changes.
  lemma PutKeeps(v: VM, k: Loc, f: nat, perm: Word)
    requires Inv(v) && Small(v) && k.d in v.dirs && k.vpn < UVPN && SlotOf(k) in v.tabs
    requires f in v.data && Fits(v, k, f) && NamesFrame(f, perm) && perm.fl & 4 != 0
    ensures Inv(Put(v, k, f, perm)) && Small(Put(v, k, f, perm)) && Content(v, Put(v, k, f, perm))
    ensures f in Put(v, k, f, perm).data
  {
    if k in v.ptes && v.ptes[k].pn == f {
      PutSameKeeps(v, k, f, perm);
    } else {
      PutOther(v, k, f, perm);
    }
  }

  lemma PutOther(v: VM, k: Loc, f: nat, perm: Word)
    requires Inv(v) && Small(v) && k.d in v.dirs && k.vpn < UVPN && SlotOf(k) in v.tabs
    requires f in v.data && v.ref[f] < 65535 && NamesFrame(f, perm) && perm.fl & 4 != 0
    ensures Inv(Put(v, k, f, perm)) && Small(Put(v, k, f, perm)) && Content(v, Put(v, k, f, perm))
    ensures f in Put(v, k, f, perm).data
  {
    var v2 := Remove(v.(ref := v.ref[f := v.ref[f] + 1]), k);
    var w := PteFor(f, perm);
    PutSteps(v, k, f, perm);
    PinnedRemove(v, k, f);
    PteForFlags(f, perm);
    assert multiset{} + multiset{f} == multiset{f};
    GiveKeeps(v2, multiset{}, k, w);
  }

  lemma PutOtherRef(v: VM, k: Loc, f: nat, perm: Word)
    requires f < |v.ref| && (k in v.ptes ==> v.ptes[k].pn < |v.ref| && v.ptes[k].pn != f)
    ensures Put(v, k, f, perm).ref[f] == Inc(v.ref[f])
  {
  }

  lemma PutSameBreaks(v: VM, k: Loc, f: nat, perm: Word)
    requires f < |v.ref| && v.ref[f] == |Maps(v.ptes, f)| < 65536 && k in v.ptes && v.ptes[k].pn == f
    requires !NamesFrame(f, perm)
    ensures Put(v, k, f, perm).ref[f] != |Maps(Put(v, k, f, perm).ptes, f)|
  {
    assert k in Maps(v.ptes, f);
    PutSame(v, k, f, perm);
    assert Maps(v.ptes, f) == Maps(v.ptes[k := PteFor(f, perm)], f) + {k};
  }

  lemma PutOtherBreaks(v: VM, k: Loc, f: nat, perm: Word)
    requires f < |v.ref| && 0 < v.ref[f] == |Maps(v.ptes, f)| < 65536
    requires k in v.ptes ==> v.ptes[k].pn < |v.ref| && v.ptes[k].pn != f
    requires !(NamesFrame(f, perm) && v.ref[f] < 65535)
    ensures Put(v, k, f, perm).ref[f] != |Maps(Put(v, k, f, perm).ptes, f)|
  {
    PutOtherRef(v, k, f, perm);
    hide Put;
    assert Maps(v.ptes[k := PteFor(f, perm)], f) == Maps(v.ptes, f) + if NamesFrame(f, perm) then {k} else {};
  }

  lemma RefsOfPage(v: VM, w: VM, f: nat)
    requires Shape(v) && f in v.data && w.tabs == v.tabs && w.dirs == v.dirs
    ensures Refs(w, f) == |Maps(w.ptes, f)|
  {
    assert Holds(v.tabs, f) == {};
  }

  // Otherwise the count of f is wrong afterwards.
  lemma PutBreaks(v: VM, k: Loc, f: nat, perm: Word)
    requires Inv(v) && Small(v) && InRange(v) && f in v.data && f < |v.ref| && v.ref[f] > 0
    requires !(NamesFrame(f, perm) && Fits(v, k, f))
    ensures !Inv(Put(v, k, f, perm))
  {
    var w := Put(v, k, f, perm);
    RefsOfPage(v, v, f);
    RefsOfPage(v, w, f);
    assert v.ref[f] == Refs(v, f) + multiset{}[f];
    assert Inv(w) ==> w.ref[f] == Refs(w, f) + multiset{}[f];
    hide Inv, Refs, Put, Maps;
    if k in v.ptes && v.ptes[k].pn == f {
      PutSameBreaks(v, k, f, perm);
    } else {
      PutOtherBreaks(v, k, f, perm);
    }
  }

  // ---- Conservation of frames ----

  lemma RemovePool(v: VM, x: multiset<nat>, k: Loc)
    requires InvX(v, x)
    ensures Pool(Remove(v, k)) == Pool(v)
  {
    if k in v.ptes {
      assert v.ptes[k].pn in v.data;
    }
  }

  lemma ValuesInsert(t: map<Slot, nat>, s: Slot, f: nat)
    requires s !in t
    ensures t[s := f].Values == t.Values + {f}
  {
    var u := t[s := f];
    assert u[s] == f;
    forall g | g in t.Values ensures g in u.Values {
      var q :| q in t && t[q] == g;
      assert u[q] == g;
    }
  }

  lemma WalkPool(v: VM, s: Slot)
    requires Shape(v) && FreeOk(v) && (s in v.tabs || v.free != [])
    ensures Pool(Walk(v, s)) == Pool(v)
  {
    if s !in v.tabs {
      var w := Walk(v, s);
      assert v.free == [v.free[0]] + w.free;
      ValuesInsert(v.tabs, s, v.free[0]);
    }
  }

  lemma PutPool(v: VM, k: Loc, f: nat, perm: Word)
    requires Inv(v) && Small(v) && f in v.data && Fits(v, k, f)
    ensures Pool(Put(v, k, f, perm)) == Pool(v)
  {
    if k in v.ptes && v.ptes[k].pn == f {
      assert k in Maps(v.ptes, f);
      PutSame(v, k, f, perm);
      return;
    }
    var v1 := v.(ref := v.ref[f := v.ref[f] + 1]);
    PutSteps(v, k, f, perm);
    PinKeeps(v, f);
    RemovePool(v1, multiset{f}, k);
  }

  // ---- page_insert is an update of one key ----

  lemma WalkFlat(v: VM, k: Loc)
    requires Inv(v) && Small(v) && k.d in v.dirs && k.vpn < UVPN && CanWalk(v, k)
    ensures var u := Walk(v, SlotOf(k));
            && Inv(u) && Small(u) && Pool(u) == Pool(v) && SlotOf(k) in u.tabs && |u.ref| == |v.ref|
            && u.ptes == v.ptes && u.dirs == v.dirs && u.data == v.data
            && (forall f :: f in v.data ==> u.ref[f] == v.ref[f])
  {
    WalkKeeps(v, multiset{}, k);
    WalkPool(v, SlotOf(k));
    if SlotOf(k) !in v.tabs {
      FreeUnreferenced(v, 0);
    }
  }

  // page_insert: either the table for k is missing and no frame is free, and nothing changes;
  // or exactly k changes, and at most one frame becomes a table.
  lemma InsertFlat(v: VM, k: Loc, f: nat, perm: Word)
    requires Inv(v) && Small(v) && k.d in v.dirs && k.vpn < UVPN
    requires f in v.data && Fits(v, k, f) && NamesFrame(f, perm) && perm.fl & 4 != 0
    ensures var (w, r) := Insert(v, k, f, perm);
            if CanWalk(v, k) then
              && r == 0 && Inv(w) && Small(w) && Content(v, w) && Pool(w) == Pool(v)
              && w.ptes == v.ptes[k := Word(f, perm.fl | PTE_P)] && w.dirs == v.dirs
              && w.tabs == (if SlotOf(k) in v.tabs then v.tabs else v.tabs[SlotOf(k) := v.free[0]])
              && f in w.data
            else r == E_NO_MEM && w == v
  {
    if CanWalk(v, k) {
      var u := Walk(v, SlotOf(k));
      WalkFlat(v, k);
      PutKeeps(u, k, f, perm);
      PutPool(u, k, f, perm);
      PteForFlags(f, perm);
    }
  }
}
