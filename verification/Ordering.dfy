/** The order in which ordered maps iterate, and sorted index lists. */
module Ordering {
  import opened Bytes
  import opened Sums

  /** A string, as its bytes: ordered maps compare strings bytewise. */
  type Text = seq<Byte>

  ghost predicate StrictlySorted(ks: seq<Text>) {
    forall i, j :: 0 <= i < j < |ks| ==> Precedes(ks[i], ks[j])
  }

  predicate IsLeast(k: Text, keys: set<Text>) {
    k in keys && forall x :: x in keys ==> LexLe(k, x)
  }

  lemma {:induction false} LeastExists(keys: set<Text>) returns (k: Text)
    requires keys != {}
    ensures IsLeast(k, keys)
  {
    var x :| x in keys;
    LexTotal(x, x);
    var rest := keys - {x};
    k := x;
    assert forall z :: z in keys ==> z == x || z in rest;
    if rest != {} {
      var y := LeastExists(rest);
      LexTotal(x, y);
      if LexLe(x, y) {
        forall z | z in keys ensures LexLe(x, z) {
          if z != x {
            LexTransitive(x, y, z);
          }
        }
      } else {
        k := y;
      }
    }
  }

  lemma LeastUnique(keys: set<Text>)
    requires keys != {}
    ensures exists k :: IsLeast(k, keys)
    ensures forall j, k :: IsLeast(j, keys) && IsLeast(k, keys) ==> j == k
  {
    var k := LeastExists(keys);
    forall i, j | IsLeast(i, keys) && IsLeast(j, keys) ensures i == j {
      LexAntisymmetric(i, j);
    }
  }

  lemma LeastPrecedes(k: Text, keys: set<Text>, rest: seq<Text>)
    requires IsLeast(k, keys) && forall x :: x in rest ==> x in keys - {k}
    ensures forall i :: 0 <= i < |rest| ==> Precedes(k, rest[i])
  {
    forall i | 0 <= i < |rest| ensures Precedes(k, rest[i]) {
      assert rest[i] in rest;
      LexLeIff(k, rest[i]);
    }
  }

  /** The keys of an ordered map, in the order of iteration. */
  function SortedKeys(keys: set<Text>): (ks: seq<Text>)
    ensures StrictlySorted(ks)
    ensures forall k :: k in ks <==> k in keys
    ensures |ks| == |keys|
  {
    if keys == {} then []
    else
      LeastUnique(keys);
      var k :| k in keys && IsLeast(k, keys);
      var rest := SortedKeys(keys - {k});
      LeastPrecedes(k, keys, rest);
      [k] + rest
  }

  lemma KeyPosition(keys: set<Text>, k: Text) returns (i: nat)
    requires k in keys
    ensures i < |SortedKeys(keys)| && SortedKeys(keys)[i] == k
  {
    assert k in SortedKeys(keys);
    i :| i < |SortedKeys(keys)| && SortedKeys(keys)[i] == k;
  }

  // ----- Sorted indices -----

  predicate Ascending(xs: seq<u64>) {
    forall i :: 0 < i < |xs| ==> xs[i - 1] <= xs[i]
  }

  function Insert(xs: seq<u64>, x: u64): (r: seq<u64>)
    ensures r != [] && (r[0] == x || (xs != [] && r[0] == xs[0]))
  {
    if xs == [] || x <= xs[0] then [x] + xs else [xs[0]] + Insert(xs[1..], x)
  }

  lemma {:induction false} InsertAscending(xs: seq<u64>, x: u64)
    requires Ascending(xs)
    ensures Ascending(Insert(xs, x))
  {
    if xs != [] && x > xs[0] {
      assert Ascending(xs[1..]) by {
        assert forall i :: 0 < i < |xs[1..]| ==> xs[1..][i - 1] == xs[i] && xs[1..][i] == xs[i + 1];
      }
      InsertAscending(xs[1..], x);
    }
  }

  lemma {:induction false} InsertAdds(xs: seq<u64>, x: u64)
    ensures multiset(Insert(xs, x)) == multiset(xs) + multiset{x}
  {
    if xs != [] && x > xs[0] {
      InsertAdds(xs[1..], x);
      assert xs == [xs[0]] + xs[1..];
    }
  }

  function SortIndices(xs: seq<u64>): seq<u64> {
    if xs == [] then [] else Insert(SortIndices(xs[..|xs| - 1]), xs[|xs| - 1])
  }

  lemma {:induction false} SortIndicesSorts(xs: seq<u64>)
    ensures Ascending(SortIndices(xs)) && multiset(SortIndices(xs)) == multiset(xs)
  {
    if xs != [] {
      SortIndicesSorts(xs[..|xs| - 1]);
      InsertAscending(SortIndices(xs[..|xs| - 1]), xs[|xs| - 1]);
      InsertAdds(SortIndices(xs[..|xs| - 1]), xs[|xs| - 1]);
      assert xs == xs[..|xs| - 1] + [xs[|xs| - 1]];
    }
  }

  lemma {:induction false} HeadIsLeast(xs: seq<u64>, i: nat)
    requires Ascending(xs) && i < |xs|
    ensures xs[0] <= xs[i]
  {
    if i > 0 {
      HeadIsLeast(xs, i - 1);
    }
  }

  lemma HeadBelow(xs: seq<u64>, v: u64)
    requires Ascending(xs) && v in multiset(xs)
    ensures xs != [] && xs[0] <= v
  {
    var i := IndexIn(xs, v);
    HeadIsLeast(xs, i);
  }

  lemma {:induction false} AscendingUnique(xs: seq<u64>, ys: seq<u64>)
    requires Ascending(xs) && Ascending(ys) && multiset(xs) == multiset(ys)
    ensures xs == ys
  {
    if xs == [] {
      EmptyReordering(ys);
    } else {
      HeadBelow(ys, xs[0]);
      HeadBelow(xs, ys[0]);
      Tail(xs);
      Tail(ys);
      AscendingUnique(xs[1..], ys[1..]);
      HeadAndTail(xs, ys);
    }
  }

  lemma HeadAndTail(xs: seq<u64>, ys: seq<u64>)
    requires xs != [] && ys != [] && xs[0] == ys[0] && xs[1..] == ys[1..]
    ensures xs == ys
  {
    assert xs == [xs[0]] + xs[1..] && ys == [ys[0]] + ys[1..];
  }

  lemma Tail(xs: seq<u64>)
    requires Ascending(xs) && xs != []
    ensures Ascending(xs[1..]) && multiset(xs[1..]) == multiset(xs) - multiset{xs[0]}
  {
    assert xs == [xs[0]] + xs[1..];
    assert forall i :: 0 < i < |xs[1..]| ==> xs[1..][i - 1] == xs[i] && xs[1..][i] == xs[i + 1];
  }
}
