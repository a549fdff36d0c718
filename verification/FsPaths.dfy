/** Path splitting (fisopfs/utilidades.c): at the first slash for lookup, at the last for the parent. */
module FsPaths {

  const MAXIMO_PATH := 2048
  const NUL := 0
  const SLASH := 47
  const DOT := 46

  type Byte = x: int | 0 <= x < 256

  type Name = seq<Byte>

  datatype Option<T> = None | Some(value: T)

  // ---- The splitting functions, on strings without their terminator -----------------------

  // The index strchr finds, or the length.
  function FirstSlash(s: Name): (i: nat)
    ensures i <= |s| && (i < |s| ==> s[i] == SLASH) && forall k :: 0 <= k < i ==> s[k] != SLASH
  {
    if s == [] || s[0] == SLASH then 0 else 1 + FirstSlash(s[1..])
  }

  // The index strrchr finds, or -1.
  function LastSlash(s: Name): (i: int)
    ensures -1 <= i < |s| && (i >= 0 ==> s[i] == SLASH) && forall k :: i < k < |s| ==> s[k] != SLASH
  {
    if s == [] then -1
    else if s[|s| - 1] == SLASH then |s| - 1
    else LastSlash(s[..|s| - 1])
  }

  // dividir_path_en_dos
  function SplitFirst(s: Name): (Name, Option<Name>) {
    var i := FirstSlash(s);
    if i < |s| then (s[..i], Some(s[i + 1..])) else (s, None)
  }

  // obtener_directorio_path
  function ParentPath(s: Name): Name {
    var i := LastSlash(s);
    if s == [SLASH] then s
    else if i < 0 then [DOT]
    else if i == 0 then [SLASH]
    else s[..i]
  }

  // obtener_nombre_final_path
  function FinalName(s: Name): Name { s[LastSlash(s) + 1..] }

  // ---- Normalised absolute paths ---------------------------------------------------------

  predicate GoodName(n: Name) { n != [] && SLASH !in n && NUL !in n && |n| < MAXIMO_PATH }

  predicate GoodPath(cs: seq<Name>) { forall i :: 0 <= i < |cs| ==> GoodName(cs[i]) }

  // Each component with a slash before it.
  function Join(cs: seq<Name>): Name {
    if cs == [] then [] else Join(cs[..|cs| - 1]) + [SLASH] + cs[|cs| - 1]
  }

  function Path(cs: seq<Name>): Name { if cs == [] then [SLASH] else Join(cs) }

  // The components with slashes only between them.
  function Rest(cs: seq<Name>): Name
    requires cs != []
  {
    if |cs| == 1 then cs[0] else cs[0] + [SLASH] + Rest(cs[1..])
  }

  lemma {:induction false} JoinRest(cs: seq<Name>)
    requires cs != []
    ensures Join(cs) == [SLASH] + Rest(cs)
  {
    var n := |cs| - 1;
    if n > 0 {
      JoinRest(cs[..n]);
      RestLast(cs);
    } else {
      assert cs[..0] == [];
    }
  }

  lemma {:induction false} RestLast(cs: seq<Name>)
    requires |cs| > 1
    ensures Rest(cs) == Rest(cs[..|cs| - 1]) + [SLASH] + cs[|cs| - 1]
  {
    var n := |cs| - 1;
    if n > 1 {
      RestLast(cs[1..]);
      assert cs[1..][..n - 1] == cs[..n][1..];
      assert Rest(cs[..n]) == cs[0] + [SLASH] + Rest(cs[..n][1..]);
      assert cs[0] + [SLASH] + (Rest(cs[..n][1..]) + [SLASH] + cs[n]) == (cs[0] + [SLASH] + Rest(cs[..n][1..])) + [SLASH] + cs[n];
    }
  }

  lemma {:induction false} LastSlashAt(a: Name, b: Name)
    requires forall k :: 0 <= k < |b| ==> b[k] != SLASH
    ensures LastSlash(a + [SLASH] + b) == |a|
  {
    if b == [] {
      assert (a + [SLASH] + b)[|a|] == SLASH;
    } else {
      var n := |b| - 1;
      LastSlashAt(a, b[..n]);
      assert (a + [SLASH] + b)[..|a| + 1 + n] == a + [SLASH] + b[..n];
      assert (a + [SLASH] + b)[|a| + 1 + n] == b[n];
    }
  }

  // The last slash of a normalised path separates its parent from its last component.
  lemma ParentAndName(cs: seq<Name>)
    requires cs != [] && GoodPath(cs)
    ensures ParentPath(Path(cs)) == Path(cs[..|cs| - 1]) && FinalName(Path(cs)) == cs[|cs| - 1]
  {
    var n := |cs| - 1;
    var a, b := Join(cs[..n]), cs[n];
    assert GoodName(b);
    LastSlashAt(a, b);
    var s := Join(cs);
    assert s == a + [SLASH] + b;
    assert s[|a|..] == [SLASH] + b && s[|a| + 1..] == b && s[..|a|] == a;
    if n > 0 {
      JoinRest(cs[..n]);
    }
  }

  // Splitting at the first slash takes a normalised path apart from the front.
  lemma SplitsFirst(cs: seq<Name>)
    requires cs != [] && GoodPath(cs)
    ensures SplitFirst(Rest(cs)) == (cs[0], if |cs| == 1 then None else Some(Rest(cs[1..])))
  {
    assert GoodName(cs[0]);
    var s := Rest(cs);
    var i := FirstSlash(s);
    if |cs| > 1 {
      assert s[|cs[0]|] == SLASH;
      assert forall k :: 0 <= k < |cs[0]| ==> s[k] == cs[0][k];
      assert i == |cs[0]|;
      assert s[..i] == cs[0] && s[i + 1..] == Rest(cs[1..]);
    }
  }

  lemma ComponentsUnique(a: seq<Name>, b: seq<Name>)
    requires GoodPath(a) && GoodPath(b) && Path(a) == Path(b)
    ensures a == b
    decreases |a|
  {
    if a == [] || b == [] {
      NonRootPath(a);
      NonRootPath(b);
    } else {
      ParentAndName(a);
      ParentAndName(b);
      ComponentsUnique(a[..|a| - 1], b[..|b| - 1]);
      assert a == a[..|a| - 1] + [a[|a| - 1]] && b == b[..|b| - 1] + [b[|b| - 1]];
    }
  }

  lemma NonRootPath(cs: seq<Name>)
    requires GoodPath(cs)
    ensures |Path(cs)| == 1 <==> cs == []
  {
    if cs != [] {
      assert GoodName(cs[|cs| - 1]);
    }
  }

  // ---- The parent in a character buffer --------------------------------------------------

  // The string a buffer holds: its bytes before the first terminator.
  function CString(b: seq<Byte>): (s: Name)
    ensures |s| <= |b| && s == b[..|s|] && (forall k :: 0 <= k < |s| ==> s[k] != NUL) && (|s| < |b| ==> b[|s|] == NUL)
  {
    if b == [] || b[0] == NUL then [] else [b[0]] + CString(b[1..])
  }

  lemma {:induction false} CStringIs(b: seq<Byte>, n: nat)
    requires n < |b| && b[n] == NUL && forall k :: 0 <= k < n ==> b[k] != NUL
    ensures CString(b) == b[..n]
  {
    if n > 0 {
      CStringIs(b[1..], n - 1);
      assert b[..n] == [b[0]] + b[1..][..n - 1];
    }
  }

  // obtener_parte_directorio, which cuts the path off in place.
  method CutToParent(path: array<Byte>)
    requires path.Length >= 2 && |CString(path[..])| < path.Length
    modifies path
    ensures CString(path[..]) == ParentPath(old(CString(path[..])))
  {
    ghost var s := CString(path[..]);
    var length := 0;
    while length < path.Length && path[length] != NUL
      invariant 0 <= length <= |s|
      decreases path.Length - length
    {
      assert length < |s| by { assert path[..][length] == path[length]; }
      length := length + 1;
    }
    if length == 0 {
      path[0], path[1] := DOT, NUL;
      CStringIs(path[..], 1);
      return;
    }
    if path[0] == SLASH && length == 1 {
      assert s == [SLASH];
      return;
    }
    var i := length - 1;
    while i >= 0 && path[i] != SLASH
      invariant -1 <= i < length
      invariant forall k :: i < k < length ==> s[k] != SLASH
    {
      i := i - 1;
    }
    assert i == LastSlash(s) by { if i >= 0 { assert s[i] == SLASH; } }
    if i >= 0 {
      if i == 0 {
        path[1] := NUL;
        assert path[..][..1] == [SLASH];
        CStringIs(path[..], 1);
      } else {
        path[i] := NUL;
        assert path[..][..i] == s[..i];
        CStringIs(path[..], i);
      }
    } else {
      path[0], path[1] := DOT, NUL;
      CStringIs(path[..], 1);
    }
  }
}
