/** Python's `list.sort(key=..., reverse=True)`: a stable sort into non-increasing key order. */
module Sorting {

  function InsertDescending<T>(x: T, s: seq<T>, key: T -> real): seq<T> {
    if s == [] || key(x) >= key(s[0]) then [x] + s else [s[0]] + InsertDescending(x, s[1..], key)
  }

  function SortDescending<T>(s: seq<T>, key: T -> real): seq<T> {
    if s == [] then [] else InsertDescending(s[0], SortDescending(s[1..], key), key)
  }

  ghost predicate Descending<T>(s: seq<T>, key: T -> real) {
    forall i, j :: 0 <= i < j < |s| ==> key(s[i]) >= key(s[j])
  }

  ghost predicate Distinct<T>(s: seq<T>) {
    forall i, j :: 0 <= i < j < |s| ==> s[i] != s[j]
  }

  /** The elements with key `k`, in order. */
  ghost function WithKey<T>(s: seq<T>, key: T -> real, k: real): seq<T> {
    if s == [] then [] else (if key(s[0]) == k then [s[0]] else []) + WithKey(s[1..], key, k)
  }

  lemma {:induction false} InsertPermutes<T>(x: T, s: seq<T>, key: T -> real)
    ensures multiset(InsertDescending(x, s, key)) == multiset{x} + multiset(s)
  {
    if s != [] && key(x) < key(s[0]) {
      InsertPermutes(x, s[1..], key);
      assert s == [s[0]] + s[1..];
    }
  }

  lemma {:induction false} InsertSorts<T>(x: T, s: seq<T>, key: T -> real)
    requires Descending(s, key)
    ensures Descending(InsertDescending(x, s, key), key)
  {
    if s != [] && key(x) < key(s[0]) {
      InsertSorts(x, s[1..], key);
      InsertPermutes(x, s[1..], key);
      var rest := InsertDescending(x, s[1..], key);
      forall i | 0 <= i < |rest| ensures key(s[0]) >= key(rest[i]) {
        assert rest[i] in multiset(rest);
        assert rest[i] == x || rest[i] in s[1..];
      }
    }
  }

  lemma {:induction false} SortIsPermutation<T>(s: seq<T>, key: T -> real)
    ensures multiset(SortDescending(s, key)) == multiset(s)
    ensures |SortDescending(s, key)| == |s|
  {
    if s != [] {
      SortIsPermutation(s[1..], key);
      InsertPermutes(s[0], SortDescending(s[1..], key), key);
      assert s == [s[0]] + s[1..];
    }
    assert |multiset(s)| == |s| && |multiset(SortDescending(s, key))| == |SortDescending(s, key)|;
  }

  lemma {:induction false} SortIsDescending<T>(s: seq<T>, key: T -> real)
    ensures Descending(SortDescending(s, key), key)
  {
    if s != [] {
      SortIsDescending(s[1..], key);
      InsertSorts(s[0], SortDescending(s[1..], key), key);
    }
  }

  lemma {:induction false} InsertIsStable<T>(x: T, s: seq<T>, key: T -> real, k: real)
    requires Descending(s, key)
    ensures WithKey(InsertDescending(x, s, key), key, k) == WithKey([x] + s, key, k)
  {
    if s != [] && key(x) < key(s[0]) {
      InsertIsStable(x, s[1..], key, k);
      var rest := InsertDescending(x, s[1..], key);
      assert ([s[0]] + rest)[1..] == rest && ([x] + s)[1..] == s && ([x] + s[1..])[1..] == s[1..];
    }
  }

  /** Equal keys keep their order, so the sorted list is determined by the input. */
  lemma {:induction false} SortIsStable<T>(s: seq<T>, key: T -> real, k: real)
    ensures WithKey(SortDescending(s, key), key, k) == WithKey(s, key, k)
  {
    if s != [] {
      SortIsStable(s[1..], key, k);
      SortIsDescending(s[1..], key);
      InsertIsStable(s[0], SortDescending(s[1..], key), key, k);
      var sorted := SortDescending(s[1..], key);
      assert ([s[0]] + sorted)[1..] == sorted;
    }
  }

  lemma {:induction false} DistinctMeansOnce<T>(s: seq<T>, x: T)
    ensures Distinct(s) ==> multiset(s)[x] <= 1
  {
    if s != [] && Distinct(s) {
      assert s == [s[0]] + s[1..];
      assert Distinct(s[1..]);
      DistinctMeansOnce(s[1..], x);
      if s[0] == x {
        assert x !in s[1..];
      }
    }
  }

  /** A permutation of distinct elements is distinct. */
  lemma PermutationOfDistinct<T>(s: seq<T>, t: seq<T>)
    requires Distinct(s) && multiset(s) == multiset(t)
    ensures Distinct(t)
  {
    forall i, j | 0 <= i < j < |t| ensures t[i] != t[j] {
      if t[i] == t[j] {
        var x := t[i];
        assert t == t[..i] + [x] + t[i + 1..j] + [x] + t[j + 1..];
        assert multiset(t)[x] >= 2;
        DistinctMeansOnce(s, x);
        assert false;
      }
    }
  }
}
