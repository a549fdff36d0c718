/**
 * What the stages of the sieve pass on: each keeps the first number it gets and lets through the
 * later ones that number does not divide. The numbers kept are the primes, in order.
 */
module Primes {

  function Range(lo: int, hi: int): (s: seq<int>)
    ensures |s| == if lo <= hi then hi - lo else 0
    ensures forall i :: 0 <= i < |s| ==> s[i] == lo + i
    ensures forall v :: v in s <==> lo <= v < hi
    decreases hi - lo
  {
    if hi <= lo then [] else Range(lo, hi - 1) + [hi - 1]
  }

  function Sift(p: int, s: seq<int>): (r: seq<int>)
    requires p != 0
    ensures |r| <= |s|
  {
    if s == [] then []
    else if s[|s| - 1] % p != 0 then Sift(p, s[..|s| - 1]) + [s[|s| - 1]]
    else Sift(p, s[..|s| - 1])
  }

  predicate Increasing(s: seq<int>) { forall i, j :: 0 <= i < j < |s| ==> s[i] < s[j] }

  predicate AtLeastTwo(s: seq<int>) { forall v :: v in s ==> v >= 2 }

  // What goes through the k-th pipe, from the generator's 2..max on.
  function Stream(max: int, k: nat): (s: seq<int>)
    ensures AtLeastTwo(s)
  {
    if k == 0 then Range(2, max + 1)
    else
      var before := Stream(max, k - 1);
      if before == [] then [] else
      assert before[0] in before;
      SiftKeeps(before[0], before[1..]);
      assert forall v :: v in before[1..] ==> v in before;
      Sift(before[0], before[1..])
  }

  lemma {:induction false} SiftKeeps(p: int, s: seq<int>)
    requires p != 0
    ensures forall v :: v in Sift(p, s) <==> v in s && v % p != 0
    ensures Increasing(s) ==> Increasing(Sift(p, s))
  {
    if s != [] {
      SiftKeeps(p, s[..|s| - 1]);
      assert s == s[..|s| - 1] + [s[|s| - 1]];
      var r := Sift(p, s[..|s| - 1]);
      assert forall i :: 0 <= i < |r| ==> r[i] in r;
    }
  }

  // Sifting more of the input only appends.
  lemma {:induction false} SiftPrefix(p: int, s: seq<int>, n: nat)
    requires p != 0 && n <= |s|
    ensures Sift(p, s[..n]) <= Sift(p, s)
    decreases |s|
  {
    if n < |s| {
      assert s[..|s| - 1][..n] == s[..n];
      SiftPrefix(p, s[..|s| - 1], n);
    } else {
      assert s[..n] == s;
    }
  }

  lemma SiftNext(p: int, s: seq<int>, n: nat)
    requires p != 0 && n < |s|
    ensures Sift(p, s[..n + 1]) == if s[n] % p != 0 then Sift(p, s[..n]) + [s[n]] else Sift(p, s[..n])
  {
    assert s[..n + 1][..n] == s[..n];
  }

  // ---- Primes ----------------------------------------------------------------------------

  predicate Divides(d: int, v: int)
    requires d != 0
  {
    v % d == 0
  }

  predicate IsPrime(p: int) { p >= 2 && forall d :: 2 <= d < p ==> !Divides(d, p) }

  function PrimesUpTo(max: int): (s: seq<int>) {
    if max < 2 then []
    else if IsPrime(max) then PrimesUpTo(max - 1) + [max]
    else PrimesUpTo(max - 1)
  }

  lemma {:induction false} PrimesUpToAre(max: int)
    ensures Increasing(PrimesUpTo(max))
    ensures forall v :: v in PrimesUpTo(max) <==> IsPrime(v) && v <= max
    decreases max
  {
    if max >= 2 {
      PrimesUpToAre(max - 1);
      var r := PrimesUpTo(max - 1);
      assert forall i :: 0 <= i < |r| ==> r[i] in r;
    }
  }

  lemma HasFirst(s: seq<int>)
    ensures s != [] ==> s[0] in s
  {
  }

  lemma {:induction false} SortedUnique(a: seq<int>, b: seq<int>)
    requires Increasing(a) && Increasing(b) && forall v :: v in a <==> v in b
    ensures a == b
  {
    if a == [] {
      HasFirst(b);
    } else if b == [] {
      HasFirst(a);
    } else {
      var m, n := |a| - 1, |b| - 1;
      assert a[m] in b && b[n] in a;
      var i :| 0 <= i < |b| && b[i] == a[m];
      var j :| 0 <= j < |a| && a[j] == b[n];
      assert a[m] == b[n];
      forall v
        ensures v in a[..m] <==> v in b[..n]
      {
        assert v in a[..m] <==> v in a && v != a[m];
        assert v in b[..n] <==> v in b && v != b[n];
      }
      SortedUnique(a[..m], b[..n]);
      assert a == a[..m] + [a[m]] && b == b[..n] + [b[n]];
    }
  }

  // ---- The numbers kept ------------------------------------------------------------------

  lemma SiftDivides(p: int, s: seq<int>)
    requires p != 0
    ensures forall v :: v in Sift(p, s) <==> v in s && !Divides(p, v)
    ensures Increasing(s) ==> Increasing(Sift(p, s))
  {
    SiftKeeps(p, s);
  }

  // The first number of each of the first k streams.
  function Kept(max: int, k: nat): (q: seq<int>)
    requires forall j :: 0 <= j < k ==> Stream(max, j) != []
    ensures |q| == k && forall j :: 0 <= j < k ==> q[j] == Stream(max, j)[0]
  {
    seq(k, j requires 0 <= j < k => Stream(max, j)[0])
  }

  predicate Rough(v: int, q: seq<int>)
    requires AtLeastTwo(q)
  {
    forall j :: 0 <= j < |q| ==> assert q[j] in q; !Divides(q[j], v)
  }

  lemma ADivisor(v: int, q: seq<int>) returns (j: nat)
    requires AtLeastTwo(q) && !Rough(v, q)
    ensures j < |q| && q[j] in q && Divides(q[j], v)
  {
    j :| 0 <= j < |q| && (assert q[j] in q; Divides(q[j], v));
  }

  lemma KeptAtLeastTwo(max: int, k: nat)
    requires forall j :: 0 <= j < k ==> Stream(max, j) != []
    ensures AtLeastTwo(Kept(max, k))
  {
    forall j | 0 <= j < k
      ensures Kept(max, k)[j] >= 2
    {
      assert Stream(max, j)[0] in Stream(max, j);
    }
  }

  // Stream k holds, in order, the numbers up to max that no number kept before divides.
  lemma {:induction false} StreamIs(max: int, k: nat)
    requires forall j :: 0 <= j < k ==> Stream(max, j) != []
    ensures AtLeastTwo(Kept(max, k)) && Increasing(Stream(max, k))
    ensures forall v :: v in Stream(max, k) <==> 2 <= v <= max && Rough(v, Kept(max, k))
  {
    hide Divides;
    KeptAtLeastTwo(max, k);
    if k > 0 {
      StreamIs(max, k - 1);
      var before := Stream(max, k - 1);
      var p := before[0];
      assert p in before;
      assert Increasing(before[1..]);
      SiftDivides(p, before[1..]);
      MultipleDivides(1, p);
      var shorter, longer := Kept(max, k - 1), Kept(max, k);
      assert longer == shorter + [p];
      forall v
        ensures v in Stream(max, k) <==> 2 <= v <= max && Rough(v, longer)
      {
        assert v in before <==> v == p || v in before[1..];
        assert Rough(v, longer) <==> Rough(v, shorter) && !Divides(p, v);
      }
    }
  }

  lemma DividesTrans(a: int, b: int, c: int)
    requires a > 0 && b > 0 && Divides(a, b) && Divides(b, c)
    ensures Divides(a, c)
  {
    var m, n := b / a, c / b;
    assert b == m * a && c == n * b;
    assert c == (n * m) * a;
    MultipleDivides(n * m, a);
  }

  lemma MultipleDivides(m: int, a: int)
    requires a > 0
    ensures Divides(a, m * a)
  {
    var r := (m * a) % a;
    var q := (m * a) / a;
    assert m * a == q * a + r;
    assert (m - q) * a == r;
    NoSmallMultiple(m - q, a);
  }

  lemma NoSmallMultiple(k: int, a: int)
    requires a > 0
    ensures k * a >= a || k * a <= 0
  {
    if k >= 1 {
      assert k * a == (k - 1) * a + a && (k - 1) * a >= 0;
    } else {
      assert (-k) * a >= 0;
    }
  }

  lemma DivisorAtMost(d: int, v: int)
    requires d > 0 && v > 0 && Divides(d, v)
    ensures d <= v
  {
  }

  // The first number of a stream is prime.
  lemma FirstIsPrime(max: int, k: nat)
    requires forall j :: 0 <= j <= k ==> Stream(max, j) != []
    ensures IsPrime(Stream(max, k)[0])
  {
    StreamIs(max, k);
    var s := Stream(max, k);
    var p := s[0];
    assert p in s;
    forall d | 2 <= d < p
      ensures !Divides(d, p)
    {
      assert d !in s;
      var q := Kept(max, k);
      var j := ADivisor(d, q);
      if Divides(d, p) {
        DividesTrans(q[j], d, p);
      }
    }
  }

  lemma KeptIncreasing(max: int, k: nat)
    requires forall j :: 0 <= j < k ==> Stream(max, j) != []
    ensures Increasing(Kept(max, k))
  {
    forall i, j | 0 <= i < j < k
      ensures Stream(max, i)[0] < Stream(max, j)[0]
    {
      Smaller(max, i, j);
    }
  }

  lemma {:induction false} Smaller(max: int, i: nat, j: nat)
    requires i < j && forall k :: 0 <= k <= j ==> Stream(max, k) != []
    ensures Stream(max, i)[0] < Stream(max, j)[0]
    decreases j
  {
    StreamIs(max, j - 1);
    var before := Stream(max, j - 1);
    assert before[0] in before;
    SiftKeeps(before[0], before[1..]);
    assert Stream(max, j)[0] in Stream(max, j);
    if i < j - 1 {
      Smaller(max, i, j - 1);
    }
  }

  // As many numbers are kept as there are primes up to max, and they are these primes in order.
  lemma KeptArePrimes(max: int, k: nat)
    requires Stream(max, k) == [] && forall j :: 0 <= j < k ==> Stream(max, j) != []
    ensures Kept(max, k) == PrimesUpTo(max)
  {
    hide Divides;
    StreamIs(max, k);
    KeptIncreasing(max, k);
    PrimesUpToAre(max);
    var q := Kept(max, k);
    forall v
      ensures v in q <==> IsPrime(v) && v <= max
    {
      if v in q {
        var j :| 0 <= j < k && q[j] == v;
        FirstIsPrime(max, j);
        StreamIs(max, j);
        assert v in Stream(max, j);
      } else if IsPrime(v) && v <= max {
        assert v !in Stream(max, k);
        var j := ADivisor(v, q);
        DivisorAtMost(q[j], v);
      }
    }
    SortedUnique(q, PrimesUpTo(max));
  }

  // Every stream is shorter than the one before, so the streams run out.
  lemma {:induction false} StreamShrinks(max: int, k: nat)
    ensures Stream(max, k) == [] || |Stream(max, k)| + k <= |Stream(max, 0)|
  {
    if k > 0 {
      StreamShrinks(max, k - 1);
    }
  }

  lemma {:induction false} EmptyStays(max: int, i: nat, j: nat)
    requires i <= j && Stream(max, i) == []
    ensures Stream(max, j) == []
    decreases j
  {
    if i < j {
      EmptyStays(max, i, j - 1);
    }
  }

  lemma {:induction false} Earlier(max: int, k: nat)
    requires Stream(max, k) != []
    ensures forall j :: 0 <= j <= k ==> Stream(max, j) != []
  {
    forall j | 0 <= j <= k
      ensures Stream(max, j) != []
    {
      if Stream(max, j) == [] {
        EmptyStays(max, j, k);
      }
    }
  }

  // The first number of the k-th stream is the prime with k smaller ones.
  lemma KthPrime(max: int, k: nat)
    requires Stream(max, k) != []
    ensures k < |PrimesUpTo(max)| && Stream(max, k)[0] == PrimesUpTo(max)[k]
  {
    Earlier(max, k);
    var n := FirstEmpty(max, k + 1);
    KeptArePrimes(max, n);
    assert Kept(max, n)[k] == Stream(max, k)[0];
  }

  lemma {:induction false} FirstEmpty(max: int, k: nat) returns (n: nat)
    requires forall j :: 0 <= j < k ==> Stream(max, j) != []
    ensures k <= n && Stream(max, n) == [] && forall j :: 0 <= j < n ==> Stream(max, j) != []
    decreases |Stream(max, 0)| + 1 - k
  {
    if Stream(max, k) == [] {
      n := k;
    } else {
      StreamShrinks(max, k);
      n := FirstEmpty(max, k + 1);
    }
  }
}
