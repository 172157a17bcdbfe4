/** Sums over maps and sequences, flattening, and their invariance under reordering. */
module Sums {

  /** The sum of f over the values of a finite map. */
  ghost function SumMap<K, V>(m: map<K, V>, f: V -> int): int
    decreases |m|
  {
    if m == map[] then 0
    else
      var k :| k in m;
      f(m[k]) + SumMap(m - {k}, f)
  }

  lemma {:induction false} SumMapRemove<K, V>(m: map<K, V>, f: V -> int, k: K)
    requires k in m
    ensures SumMap(m, f) == f(m[k]) + SumMap(m - {k}, f)
    decreases |m|
  {
    var j :| j in m && SumMap(m, f) == f(m[j]) + SumMap(m - {j}, f);
    if j != k {
      SumMapRemove(m - {j}, f, k);
      SumMapRemove(m - {k}, f, j);
      assert m - {j} - {k} == m - {k} - {j};
    }
  }

  /** Writing one entry changes the sum by exactly the difference at that key. */
  lemma SumMapPut<K, V>(m: map<K, V>, f: V -> int, k: K, v: V)
    ensures k in m ==> SumMap(m[k := v], f) == SumMap(m, f) - f(m[k]) + f(v)
    ensures k !in m ==> SumMap(m[k := v], f) == SumMap(m, f) + f(v)
  {
    var n := m[k := v];
    SumMapRemove(n, f, k);
    if k in m {
      SumMapRemove(m, f, k);
      assert n - {k} == m - {k};
    } else {
      assert n - {k} == m;
    }
  }

  lemma {:induction false} SumMapNonNegative<K, V(!new)>(m: map<K, V>, f: V -> int)
    requires forall v :: f(v) >= 0
    ensures SumMap(m, f) >= 0
    ensures forall k :: k in m ==> f(m[k]) <= SumMap(m, f)
    decreases |m|
  {
    forall k | k in m ensures f(m[k]) <= SumMap(m, f) {
      SumMapRemove(m, f, k);
      SumMapNonNegative(m - {k}, f);
    }
    if m != map[] {
      var k :| k in m;
      assert f(m[k]) >= 0;
    }
  }

  /** Two entries together are bounded by the sum. */
  lemma SumMapTwo<K, V(!new)>(m: map<K, V>, f: V -> int, j: K, k: K)
    requires forall v :: f(v) >= 0
    requires j in m && k in m && j != k
    ensures f(m[j]) + f(m[k]) <= SumMap(m, f)
  {
    SumMapRemove(m, f, j);
    SumMapNonNegative(m - {j}, f);
    assert (m - {j})[k] == m[k];
  }

  /** The sum of f over a sequence. */
  function SumSeq<T>(s: seq<T>, f: T -> int): int {
    if s == [] then 0 else SumSeq(s[..|s| - 1], f) + f(s[|s| - 1])
  }

  lemma {:induction false} SumSeqConcat<T>(s: seq<T>, t: seq<T>, f: T -> int)
    ensures SumSeq(s + t, f) == SumSeq(s, f) + SumSeq(t, f)
  {
    if t == [] {
      assert s + t == s;
    } else {
      var u := t[..|t| - 1];
      SumSeqConcat(s, u, f);
      assert (s + t)[..|s + t| - 1] == s + u;
    }
  }

  lemma {:induction false} SumSeqRemove<T>(s: seq<T>, i: nat, f: T -> int)
    requires i < |s|
    ensures SumSeq(s, f) == f(s[i]) + SumSeq(s[..i] + s[i + 1..], f)
  {
    var a, b := s[..i], s[i + 1..];
    assert s == a + [s[i]] + b;
    SumSeqConcat(a + [s[i]], b, f);
    SumSeqConcat(a, [s[i]], f);
    SumSeqConcat(a, b, f);
    assert [s[i]][..0] == [];
    assert SumSeq([s[i]], f) == f(s[i]);
  }

  lemma {:induction false} SumSeqNonNegative<T(!new)>(s: seq<T>, f: T -> int)
    requires forall x :: f(x) >= 0
    ensures SumSeq(s, f) >= 0
  {
    if s != [] {
      SumSeqNonNegative(s[..|s| - 1], f);
    }
  }

  lemma IndexIn<T>(t: seq<T>, x: T) returns (i: nat)
    requires x in multiset(t)
    ensures i < |t| && t[i] == x
  {
    assert x in t;
    i :| i < |t| && t[i] == x;
  }

  function Without<T>(t: seq<T>, i: nat): seq<T>
    requires i < |t|
  {
    t[..i] + t[i + 1..]
  }

  lemma WithoutMultiset<T>(t: seq<T>, i: nat)
    requires i < |t|
    ensures multiset(t) == multiset(Without(t, i)) + multiset{t[i]}
  {
    var a, b := t[..i], t[i + 1..];
    assert t == a + [t[i]] + b;
    assert multiset(t) == multiset(a) + multiset{t[i]} + multiset(b);
    assert multiset(a + b) == multiset(a) + multiset(b);
  }

  lemma CancelOne<T>(a: multiset<T>, b: multiset<T>, x: T)
    requires a + multiset{x} == b + multiset{x}
    ensures a == b
  {
    assert a == a + multiset{x} - multiset{x};
    assert b == b + multiset{x} - multiset{x};
  }

  /** Splits the last element off one sequence and finds it in a reordering of it. */
  lemma MatchLast<T>(s: seq<T>, t: seq<T>) returns (i: nat)
    requires multiset(s) == multiset(t) && s != []
    ensures i < |t| && t[i] == s[|s| - 1]
    ensures multiset(s[..|s| - 1]) == multiset(Without(t, i))
  {
    var x := s[|s| - 1];
    assert s == s[..|s| - 1] + [x];
    assert multiset(s) == multiset(s[..|s| - 1]) + multiset{x};
    i := IndexIn(t, x);
    WithoutMultiset(t, i);
    CancelOne(multiset(s[..|s| - 1]), multiset(Without(t, i)), x);
  }

  lemma EmptyReordering<T>(t: seq<T>)
    requires multiset(t) == multiset{}
    ensures t == []
  {
    assert |multiset(t)| == 0;
  }

  /** Reordering a sequence does not change its sum. */
  lemma {:induction false} SumSeqPermutation<T>(s: seq<T>, t: seq<T>, f: T -> int)
    requires multiset(s) == multiset(t)
    ensures SumSeq(s, f) == SumSeq(t, f)
    decreases |s|
  {
    if s == [] {
      EmptyReordering(t);
    } else {
      var i := MatchLast(s, t);
      SumSeqRemove(t, i, f);
      SumSeqPermutation(s[..|s| - 1], Without(t, i), f);
    }
  }

  /** The concatenation of f over a sequence. */
  function FlatMap<S, T>(s: seq<S>, f: S -> seq<T>): seq<T> {
    if s == [] then [] else FlatMap(s[..|s| - 1], f) + f(s[|s| - 1])
  }

  lemma {:induction false} FlatMapConcat<S, T>(a: seq<S>, b: seq<S>, f: S -> seq<T>)
    ensures FlatMap(a + b, f) == FlatMap(a, f) + FlatMap(b, f)
  {
    if b == [] {
      assert a + b == a;
    } else {
      FlatMapConcat(a, b[..|b| - 1], f);
      assert (a + b)[..|a + b| - 1] == a + b[..|b| - 1];
    }
  }

  lemma FlatMapOne<S, T>(x: S, f: S -> seq<T>)
    ensures FlatMap([x], f) == f(x)
  {
    assert [x][..0] == [];
  }

  /** How often y occurs in f of an element. */
  function CountIn<S, T(==)>(f: S -> seq<T>, y: T): S -> int {
    (x: S) => multiset(f(x))[y]
  }

  lemma {:induction false} FlatMapCount<S, T>(s: seq<S>, f: S -> seq<T>, y: T)
    ensures multiset(FlatMap(s, f))[y] == SumSeq(s, CountIn(f, y))
  {
    if s != [] {
      FlatMapCount(s[..|s| - 1], f, y);
    }
  }

  lemma SameCounts<T(!new)>(a: multiset<T>, b: multiset<T>)
    requires forall y :: a[y] == b[y]
    ensures a == b
  {
    assert a - b == multiset{} && b - a == multiset{};
    assert a == (a - b) + (a * b) && b == (b - a) + (a * b);
  }

  /** Reordering a sequence only reorders what it flattens to. */
  lemma FlatMapPermutation<S, T(!new)>(s: seq<S>, t: seq<S>, f: S -> seq<T>)
    requires multiset(s) == multiset(t)
    ensures multiset(FlatMap(s, f)) == multiset(FlatMap(t, f))
  {
    forall y ensures multiset(FlatMap(s, f))[y] == multiset(FlatMap(t, f))[y] {
      FlatMapCount(s, f, y);
      FlatMapCount(t, f, y);
      SumSeqPermutation(s, t, CountIn(f, y));
    }
    SameCounts(multiset(FlatMap(s, f)), multiset(FlatMap(t, f)));
  }

  lemma {:induction false} FlatMapMember<S, T>(s: seq<S>, f: S -> seq<T>, y: T)
    ensures y in FlatMap(s, f) <==> exists i :: 0 <= i < |s| && y in f(s[i])
  {
    if s != [] {
      var init, last := s[..|s| - 1], s[|s| - 1];
      FlatMapMember(init, f, y);
      if i :| 0 <= i < |init| && y in f(init[i]) {
        assert y in f(s[i]);
      }
      if i :| 0 <= i < |s| && y in f(s[i]) && i < |init| {
        assert y in f(init[i]);
      }
    }
  }

  lemma SameElements<T>(a: seq<T>, b: seq<T>)
    requires multiset(a) == multiset(b)
    ensures forall x :: x in a <==> x in b
  {
    forall x ensures x in a <==> x in b {
      assert x in a <==> x in multiset(a);
      assert x in b <==> x in multiset(b);
    }
  }

  // ----- Positions in a concatenation -----

  /** Where the part of element k begins. */
  function Offset<S, T>(s: seq<S>, f: S -> seq<T>, k: nat): nat
    requires k <= |s|
  {
    |FlatMap(s[..k], f)|
  }

  lemma {:induction false} FlatMapAt<S, T>(s: seq<S>, f: S -> seq<T>, k: nat, j: nat)
    requires k < |s| && j < |f(s[k])|
    ensures Offset(s, f, k) + j < Offset(s, f, k + 1) <= |FlatMap(s, f)|
    ensures FlatMap(s, f)[Offset(s, f, k) + j] == f(s[k])[j]
  {
    var n := |s| - 1;
    assert s[..k + 1][..k] == s[..k];
    if k == n {
      assert s[..k + 1] == s;
    } else {
      FlatMapAt(s[..n], f, k, j);
      assert s[..n][..k] == s[..k] && s[..n][..k + 1] == s[..k + 1];
    }
  }

  /** Every element of a concatenation comes from a place in one of the parts. */
  lemma {:induction false} FlatMapPlace<S, T>(s: seq<S>, f: S -> seq<T>, p: nat) returns (k: nat, j: nat)
    requires p < |FlatMap(s, f)|
    ensures k < |s| && j < |f(s[k])| && f(s[k])[j] == FlatMap(s, f)[p]
  {
    var n := |s| - 1;
    var front := |FlatMap(s[..n], f)|;
    if p < front {
      k, j := FlatMapPlace(s[..n], f, p);
    } else {
      k, j := n, p - front;
    }
  }

  lemma {:induction false} OffsetMonotone<S, T>(s: seq<S>, f: S -> seq<T>, k: nat, l: nat)
    requires k <= l <= |s|
    ensures Offset(s, f, k) <= Offset(s, f, l)
  {
    assert s[..l] == s[..k] + s[k..l];
    FlatMapConcat(s[..k], s[k..l], f);
  }

  /** Different places are different positions. */
  lemma PlacesDiffer<S, T>(s: seq<S>, f: S -> seq<T>, k: nat, j: nat, k': nat, j': nat)
    requires k < |s| && j < |f(s[k])| && k' < |s| && j' < |f(s[k'])|
    requires Offset(s, f, k) + j == Offset(s, f, k') + j'
    ensures k == k' && j == j'
  {
    FlatMapAt(s, f, k, j);
    FlatMapAt(s, f, k', j');
    if k < k' {
      OffsetMonotone(s, f, k + 1, k');
    } else if k' < k {
      OffsetMonotone(s, f, k' + 1, k);
    }
  }
}
