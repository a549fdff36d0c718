/** env_free: what tearing an address space down gives back, and what it leaves alone. */
module Teardowns {
  import opened Words
  import opened Vm
  import opened VmInv

  // Pages are only ever given up between v and w.
  ghost predicate Shrinks(v: VM, w: VM)
  {
    Content(v, w) && (forall f :: 0 <= f < |v.ref| ==> w.ref[f] <= v.ref[f])
  }

  lemma RemoveRef(v: VM, x: multiset<nat>, k: Loc)
    requires InvX(v, x) && Small(v) && k in v.ptes
    ensures v.ref[v.ptes[k].pn] >= 1 && Remove(v, k).ref == v.ref[v.ptes[k].pn := v.ref[v.ptes[k].pn] - 1]
  {
    var f := v.ptes[k].pn;
    assert k in Maps(v.ptes, f);
    assert Dec(v.ref[f]) == v.ref[f] - 1;
  }

  lemma RemoveShrinks(v: VM, x: multiset<nat>, k: Loc)
    requires InvX(v, x) && Small(v)
    ensures Shrinks(v, Remove(v, k))
  {
    RemoveKeeps(v, x, k);
    if k in v.ptes {
      RemoveRef(v, x, k);
    }
  }

  // What a stretch of teardown keeps.
  ghost predicate Torn(v: VM, w: VM)
  {
    Inv(w) && Small(w) && Shrinks(v, w) && Pool(w) == Pool(v)
  }

  lemma TornReflexive(v: VM)
    requires Inv(v) && Small(v)
    ensures Torn(v, v) && InRange(v)
  {
    forall f | f in v.data && v.ref[f] == 0
      ensures f in v.data
    {
    }
  }

  lemma TornTransitive(v: VM, u: VM, w: VM)
    requires Torn(v, u) && Torn(u, w)
    ensures Torn(v, w)
  {
  }

  lemma RemoveTorn(v: VM, k: Loc)
    requires Inv(v) && Small(v)
    ensures Torn(v, Remove(v, k)) && InRange(v) && InRange(Remove(v, k))
  {
    RemoveKeeps(v, multiset{}, k);
    RemoveShrinks(v, multiset{}, k);
    RemovePool(v, multiset{}, k);
  }

  // The map without the entries of the table of s from j on.
  function Cleared(m: map<Loc, Word>, s: Slot, j: nat): map<Loc, Word>
  {
    map k | k in m && !(SlotOf(k) == s && k.vpn % 1024 >= j) :: m[k]
  }

  lemma ClearedStep(m: map<Loc, Word>, s: Slot, j: nat)
    requires j < 1024
    ensures Cleared(m - {Loc(s.d, 1024 * s.pdx + j)}, s, j + 1) == Cleared(m, s, j)
  {
  }

  // One turn of the inner loop.
  lemma ClearStep(v: VM, s: Slot, j: nat)
    requires InRange(v) && j < 1024
    ensures var k := Loc(s.d, 1024 * s.pdx + j);
            && (k in v.ptes ==> v.ptes[k].pn < |v.ref|)
            && InRange(Remove(v, k)) && Remove(v, k).ptes == v.ptes - {k} && (k !in v.ptes ==> Remove(v, k) == v)
            && ClearTable(v, s, j) == ClearTable(Remove(v, k), s, j + 1)
  {
    RemoveInRange(v, Loc(s.d, 1024 * s.pdx + j));
    hide InRange, Decref;
  }

  lemma {:induction false} ClearTablePtes(v: VM, s: Slot, j: nat)
    requires InRange(v) && j <= 1024
    ensures ClearTable(v, s, j).ptes == Cleared(v.ptes, s, j)
    decreases 1024 - j
  {
    hide InRange, Remove, Cleared;
    if j < 1024 {
      ClearStep(v, s, j);
      ClearTablePtes(Remove(v, Loc(s.d, 1024 * s.pdx + j)), s, j + 1);
      ClearedStep(v.ptes, s, j);
    } else {
      ClearedNone(v.ptes, s);
    }
  }

  lemma ClearedNone(m: map<Loc, Word>, s: Slot)
    ensures Cleared(m, s, 1024) == m
  {
  }

  lemma {:induction false} ClearTableTorn(v: VM, s: Slot, j: nat)
    requires Inv(v) && Small(v) && j <= 1024
    ensures Torn(v, ClearTable(v, s, j))
    decreases 1024 - j
  {
    hide Inv, Small, Shrinks, Remove, InRange, Pool;
    TornReflexive(v);
    if j < 1024 {
      var k := Loc(s.d, 1024 * s.pdx + j);
      ClearStep(v, s, j);
      RemoveTorn(v, k);
      ClearTableTorn(Remove(v, k), s, j + 1);
      TornTransitive(v, Remove(v, k), ClearTable(Remove(v, k), s, j + 1));
    }
  }

  // A table without entries is referenced once, by its directory entry.
  lemma TableRefOne(v: VM, s: Slot)
    requires Inv(v) && s in v.tabs && (forall k :: k in v.ptes ==> SlotOf(k) != s)
    ensures v.ref[v.tabs[s]] == 1
    ensures Inv(Release(v.(tabs := v.tabs - {s}), v.tabs[s]))
  {
    var t := v.tabs[s];
    assert Holds(v.tabs, t) == {s};
    assert Maps(v.ptes, t) == {};
    var u := v.(tabs := v.tabs - {s});
    forall f | 0 <= f < |u.ref|
      ensures u.ref[f] == Refs(u, f) + multiset{t}[f]
    {
      HoldsRemove(v.tabs, s, f);
    }
    assert multiset{} + multiset{t} == multiset{t};
    ReleaseKeeps(u, multiset{}, t);
  }

  lemma TableReleasePool(v: VM, s: Slot)
    requires Shape(v) && FreeOk(v) && s in v.tabs
    ensures Pool(Release(v.(tabs := v.tabs - {s}), v.tabs[s])) == Pool(v)
  {
    var w := Release(v.(tabs := v.tabs - {s}), v.tabs[s]);
    assert w.tabs.Values + {v.tabs[s]} == v.tabs.Values by {
      forall f | f in v.tabs.Values
        ensures f in w.tabs.Values || f == v.tabs[s]
      {
        var q :| q in v.tabs && v.tabs[q] == f;
        assert q != s ==> w.tabs[q] == f;
      }
    }
    assert forall f :: f in w.free <==> f == v.tabs[s] || f in v.free;
    assert w.data == v.data;
  }

  // Giving up a frame that is not an ordinary page changes no page.
  lemma ReleaseShrinks(v: VM, w: VM, f: nat)
    requires Inv(v) && Small(v) && f < |v.ref| && f !in v.data && v.ref[f] == 1
    requires w.ref == v.ref[f := 0] && w.data == v.data - {f}
    ensures Shrinks(v, w) && Small(w)
  {
  }

  lemma TableReleaseTorn(v: VM, s: Slot)
    requires Inv(v) && Small(v) && s in v.tabs && (forall k :: k in v.ptes ==> SlotOf(k) != s)
    ensures Torn(v, Release(v.(tabs := v.tabs - {s}), v.tabs[s]))
    ensures Release(v.(tabs := v.tabs - {s}), v.tabs[s]) == Decref(v.(tabs := v.tabs - {s}), v.tabs[s])
  {
    var u := v.(tabs := v.tabs - {s});
    TableRefOne(v, s);
    TableReleasePool(v, s);
    ReleaseShrinks(v, Release(u, v.tabs[s]), v.tabs[s]);
    hide Inv, InvX, Pool;
  }

  lemma FreeTableTorn(v: VM, s: Slot)
    requires Inv(v) && Small(v)
    ensures Torn(v, FreeTable(v, s))
    ensures FreeTable(v, s).ptes == Cleared(v.ptes, s, 0)
  {
    if s in v.tabs {
      var u := ClearTable(v, s, 0);
      ClearTableTorn(v, s, 0);
      ClearTablePtes(v, s, 0);
      TableReleaseTorn(u, s);
      TornTransitive(v, u, FreeTable(v, s));
    } else {
      TornReflexive(v);
      assert Cleared(v.ptes, s, 0) == v.ptes;
    }
  }

  // The maps without directory d's entries from directory entry i on.
  function PtesBut(m: map<Loc, Word>, d: nat, i: nat): map<Loc, Word>
  {
    map k | k in m && !(k.d == d && k.vpn / 1024 >= i) :: m[k]
  }

  function TabsBut(t: map<Slot, nat>, d: nat, i: nat): map<Slot, nat>
  {
    map s | s in t && !(s.d == d && s.pdx >= i) :: t[s]
  }

  lemma ButStep(v: VM, d: nat, i: nat)
    ensures PtesBut(Cleared(v.ptes, Slot(d, i), 0), d, i + 1) == PtesBut(v.ptes, d, i)
    ensures TabsBut(v.tabs - {Slot(d, i)}, d, i + 1) == TabsBut(v.tabs, d, i)
  {
  }

  lemma {:induction false} FreeTablesTorn(v: VM, d: nat, i: nat)
    requires Inv(v) && Small(v) && i <= UPDX
    ensures Torn(v, FreeTables(v, d, i))
    ensures FreeTables(v, d, i).ptes == PtesBut(v.ptes, d, i)
    ensures FreeTables(v, d, i).tabs == TabsBut(v.tabs, d, i)
    ensures FreeTables(v, d, i).dirs == v.dirs
    decreases UPDX - i
  {
    hide Inv, Small, Shrinks, FreeTable;
    TornReflexive(v);
    if i < UPDX {
      FreeTableTorn(v, Slot(d, i));
      var u := FreeTable(v, Slot(d, i));
      ButStep(v, d, i);
      FreeTablesTorn(u, d, i + 1);
      TornTransitive(v, u, FreeTables(u, d, i + 1));
    } else {
      NoneBeyond(v, d);
    }
  }

  lemma NoneBeyond(v: VM, d: nat)
    requires Inv(v)
    ensures PtesBut(v.ptes, d, UPDX) == v.ptes && TabsBut(v.tabs, d, UPDX) == v.tabs
  {
  }

  // ---- The directory itself ----

  // A directory without entries is referenced once, by its environment.
  lemma DirRefOne(v: VM, d: nat)
    requires Inv(v) && d in v.dirs
    requires forall k :: k in v.ptes ==> k.d != d
    requires forall s :: s in v.tabs ==> s.d != d
    ensures v.ref[d] == 1 && InvX(v.(dirs := v.dirs - {d}), multiset{} + multiset{d})
  {
    assert Maps(v.ptes, d) == {};
    assert Holds(v.tabs, d) == {};
    var u := v.(dirs := v.dirs - {d});
    forall f | 0 <= f < |u.ref|
      ensures u.ref[f] == Refs(u, f) + multiset{d}[f]
    {
    }
    assert multiset{} + multiset{d} == multiset{d};
  }

  lemma DirReleasePool(v: VM, d: nat)
    requires Inv(v) && d in v.dirs
    ensures Pool(Release(v.(dirs := v.dirs - {d}), d)) == Pool(v)
  {
    var w := Release(v.(dirs := v.dirs - {d}), d);
    assert forall f :: f in w.free <==> f == d || f in v.free;
    assert w.data == v.data;
  }

  lemma DirRelease(v: VM, d: nat)
    requires Inv(v) && Small(v) && d in v.dirs
    requires forall k :: k in v.ptes ==> k.d != d
    requires forall s :: s in v.tabs ==> s.d != d
    ensures d < |v.ref| && Torn(v, Decref(v.(dirs := v.dirs - {d}), d))
    ensures var w := Decref(v.(dirs := v.dirs - {d}), d);
            w.ptes == v.ptes && w.tabs == v.tabs && w.dirs == v.dirs - {d}
  {
    var u := v.(dirs := v.dirs - {d});
    DirRefOne(v, d);
    ReleaseKeeps(u, multiset{}, d);
    DirReleasePool(v, d);
    ReleaseShrinks(v, Release(u, d), d);
    hide Inv, InvX, Pool;
  }

  // Entries of directory d that map frame f.
  function From(m: map<Loc, Word>, d: nat, f: nat): set<Loc> { set k | k in m && k.d == d && m[k].pn == f }

  lemma MapsSplit(m: map<Loc, Word>, d: nat, f: nat)
    ensures |Maps(m, f)| == |Maps(PtesBut(m, d, 0), f)| + |From(m, d, f)|
  {
    assert Maps(m, f) == Maps(PtesBut(m, d, 0), f) + From(m, d, f);
    assert Maps(PtesBut(m, d, 0), f) !! From(m, d, f);
  }

  lemma TeardownTorn(v: VM, d: nat)
    requires Inv(v) && Small(v) && d in v.dirs
    ensures Torn(v, Teardown(v, d))
    ensures Teardown(v, d).ptes == PtesBut(v.ptes, d, 0) && Teardown(v, d).tabs == TabsBut(v.tabs, d, 0)
    ensures Teardown(v, d).dirs == v.dirs - {d}
  {
    hide Inv, Small, Shrinks, Decref, Release, FreeTables;
    TornReflexive(v);
    FreeTablesTorn(v, d, 0);
    var u := FreeTables(v, d, 0);
    DirRelease(u, d);
    TornTransitive(v, u, Teardown(v, d));
  }

  // The count of each ordinary page falls by the number of mappings the address space had.
  lemma TeardownCounts(v: VM, d: nat, f: nat)
    requires Inv(v) && Small(v) && d in v.dirs && f in v.data
    ensures Teardown(v, d).ref[f] + |From(v.ptes, d, f)| == v.ref[f]
  {
    TeardownTorn(v, d);
    MapsSplit(v.ptes, d, f);
    assert Holds(v.tabs, f) == {} && Holds(TabsBut(v.tabs, d, 0), f) == {};
  }

  lemma FreeIff(v: VM, f: nat)
    requires Inv(v)
    ensures f in v.free <==> f in Pool(v) && f !in v.dirs && f !in v.tabs.Values && f !in v.data
  {
  }

  // A page is given back exactly when it was mapped, and only here.
  lemma TeardownPage(v: VM, d: nat, f: nat)
    requires Inv(v) && Small(v) && d in v.dirs && f in v.data
    ensures f in Teardown(v, d).data <==> !(Maps(v.ptes, f) != {} && Maps(v.ptes, f) == From(v.ptes, d, f))
  {
    TeardownTorn(v, d);
    TeardownCounts(v, d, f);
    assert Holds(v.tabs, f) == {};
    assert v.ref[f] == |Maps(v.ptes, f)|;
    assert From(v.ptes, d, f) <= Maps(v.ptes, f);
    if |From(v.ptes, d, f)| == |Maps(v.ptes, f)| {
      SubsetSameSize(From(v.ptes, d, f), Maps(v.ptes, f));
    }
  }

  lemma SubsetSameSize<T>(a: set<T>, b: set<T>)
    requires a <= b && |a| == |b|
    ensures a == b
  {
    assert b == a + (b - a);
  }

  // env_free gives back exactly the directory, its tables and the pages that only it mapped.
  lemma TeardownFrees(v: VM, d: nat, f: nat)
    requires Inv(v) && Small(v) && d in v.dirs
    ensures f in Teardown(v, d).free <==>
            || f in v.free
            || f == d
            || (exists s :: s in v.tabs && s.d == d && v.tabs[s] == f)
            || (f in v.data && Maps(v.ptes, f) != {} && Maps(v.ptes, f) == From(v.ptes, d, f))
  {
    var w := Teardown(v, d);
    TeardownTorn(v, d);
    FreeIff(v, f);
    FreeIff(w, f);
    if f in v.data {
      TeardownPage(v, d, f);
    } else if f in v.tabs.Values {
      var s :| s in v.tabs && v.tabs[s] == f;
      if s.d != d {
        assert w.tabs[s] == f;
      }
    }
  }
}
