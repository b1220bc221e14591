/** Sorting by a string key, as the Go library's sort.Slice and sort.Strings promise it. */
module Sorting {
  import opened Sequences
  import opened Text

  ghost predicate SortedBy<T>(s: seq<T>, key: T -> string) {
    forall i, j :: 0 <= i < j < |s| ==> LessEq(key(s[i]), key(s[j]))
  }

  predicate DistinctKeys<T>(s: seq<T>, key: T -> string) {
    forall i, j :: 0 <= i < j < |s| ==> key(s[i]) != key(s[j])
  }

  function Insert<T>(x: T, s: seq<T>, key: T -> string): seq<T> {
    if s == [] || LessEq(key(x), key(s[0])) then [x] + s
    else [s[0]] + Insert(x, s[1..], key)
  }

  function Sort<T>(s: seq<T>, key: T -> string): seq<T> {
    if s == [] then [] else Insert(s[0], Sort(s[1..], key), key)
  }

  lemma {:induction false} InsertSorts<T>(x: T, s: seq<T>, key: T -> string)
    requires SortedBy(s, key)
    ensures SortedBy(Insert(x, s, key), key)
    ensures multiset(Insert(x, s, key)) == multiset{x} + multiset(s)
  {
    if s == [] {
    } else if LessEq(key(x), key(s[0])) {
      forall j | 0 <= j < |s| ensures LessEq(key(x), key(s[j])) {
        if 0 < j { LessEqTransitive(key(x), key(s[0]), key(s[j])); }
      }
    } else {
      InsertSorts(x, s[1..], key);
      var rest := Insert(x, s[1..], key);
      assert s == [s[0]] + s[1..];
      LessEqTotal(key(x), key(s[0]));
      forall j | 0 <= j < |rest| ensures LessEq(key(s[0]), key(rest[j])) {
        assert rest[j] in multiset(rest);
        if rest[j] != x {
          assert rest[j] in s[1..];
        }
      }
    }
  }

  lemma {:induction false} SortSorts<T>(s: seq<T>, key: T -> string)
    ensures SortedBy(Sort(s, key), key) && multiset(Sort(s, key)) == multiset(s)
  {
    if s != [] {
      SortSorts(s[1..], key);
      InsertSorts(s[0], Sort(s[1..], key), key);
      assert s == [s[0]] + s[1..];
    }
  }

  /** With distinct keys there is one sorted permutation only, so an unstable sort is deterministic. */
  lemma {:induction false} SortedUnique<T>(a: seq<T>, b: seq<T>, key: T -> string)
    requires multiset(a) == multiset(b) && DistinctKeys(a, key)
    requires SortedBy(a, key) && SortedBy(b, key)
    ensures a == b
  {
    assert |a| == |multiset(a)| == |multiset(b)| == |b|;
    if a != [] {
      SortedHead(a, b, key);
      MultisetTail(a, b);
      SortedUnique(a[1..], b[1..], key);
    }
  }

  lemma SortedHead<T>(a: seq<T>, b: seq<T>, key: T -> string)
    requires multiset(a) == multiset(b) && DistinctKeys(a, key)
    requires SortedBy(a, key) && SortedBy(b, key)
    requires a != [] && b != []
    ensures a[0] == b[0]
  {
    assert a[0] in multiset(b) && b[0] in multiset(a);
    var i :| 0 <= i < |b| && b[i] == a[0];
    var j :| 0 <= j < |a| && a[j] == b[0];
    LessEqRefl(key(a[0]));
    LessAntisymmetric(key(a[0]), key(b[0]));
  }

  lemma LessEqRefl(s: string)
    ensures LessEq(s, s)
  {
    LessEqTotal(s, s);
  }

  /** Any sorted permutation is the one that `Sort` computes. */
  lemma SortCanonical<T>(s: seq<T>, sorted: seq<T>, key: T -> string)
    requires DistinctKeys(s, key)
    requires multiset(sorted) == multiset(s) && SortedBy(sorted, key)
    ensures sorted == Sort(s, key) && DistinctKeys(sorted, key)
  {
    SortSorts(s, key);
    DistinctKeysPermute(s, sorted, key);
    SortedUnique(sorted, Sort(s, key), key);
  }

  /** Distinctness of keys survives permutation: two equal keys would be two positions of `s`. */
  lemma {:induction false} DistinctKeysPermute<T>(s: seq<T>, t: seq<T>, key: T -> string)
    requires DistinctKeys(s, key) && multiset(s) == multiset(t)
    ensures DistinctKeys(t, key)
  {
    assert NoDup(s);
    MultisetNoDup(s, t);
    forall i, j | 0 <= i < j < |t| ensures key(t[i]) != key(t[j]) {
      assert t[i] in ToSet(t) && t[j] in ToSet(t);
      assert t[i] in s && t[j] in s && t[i] != t[j];
    }
  }
}
