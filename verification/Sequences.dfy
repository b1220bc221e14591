/** Duplicate-free sequences, order-preserving difference and prefixes. */
module Sequences {

  predicate NoDup<T(==)>(s: seq<T>) {
    forall i, j :: 0 <= i < j < |s| ==> s[i] != s[j]
  }

  function ToSet<T>(s: seq<T>): set<T> {
    set x | x in s
  }

  /** The elements of `s` that are not in `out`, in order. */
  function Except<T(==)>(s: seq<T>, out: set<T>): seq<T> {
    if s == [] then []
    else
      var front := Except(s[..|s| - 1], out);
      if s[|s| - 1] in out then front else front + [s[|s| - 1]]
  }

  /** The first `n` elements, or all of them when there are fewer. */
  function Take<T>(s: seq<T>, n: nat): seq<T> {
    if n <= |s| then s[..n] else s
  }

  lemma {:induction false} ExceptElements<T>(s: seq<T>, out: set<T>)
    ensures forall x :: x in Except(s, out) <==> x in s && x !in out
    ensures NoDup(s) ==> NoDup(Except(s, out))
  {
    if s != [] {
      ExceptElements(s[..|s| - 1], out);
      assert s == s[..|s| - 1] + [s[|s| - 1]];
    }
  }

  /** What is kept of a prefix stands first. */
  lemma {:induction false} ExceptPrefix<T>(s: seq<T>, out: set<T>, j: nat)
    requires j <= |s|
    ensures Except(s[..j], out) <= Except(s, out)
    ensures j < |s| && s[j] !in out ==>
              |Except(s[..j], out)| < |Except(s, out)| && Except(s, out)[|Except(s[..j], out)|] == s[j]
  {
    if j < |s| {
      var n := |s| - 1;
      ExceptPrefix(s[..n], out, j);
      assert s[..n][..j] == s[..j];
    } else {
      assert s[..j] == s;
    }
  }

  lemma ExceptSet<T>(s: seq<T>, out: set<T>)
    ensures ToSet(Except(s, out)) == ToSet(s) - out
  {
    ExceptElements(s, out);
    var a, b := ToSet(Except(s, out)), ToSet(s) - out;
    assert a <= b && b <= a;
  }

  /** Only the membership of the elements of `s` matters. */
  lemma {:induction false} ExceptAgrees<T>(s: seq<T>, a: set<T>, b: set<T>)
    requires forall x :: x in s ==> (x in a <==> x in b)
    ensures Except(s, a) == Except(s, b)
  {
    if s != [] {
      ExceptAgrees(s[..|s| - 1], a, b);
    }
  }

  lemma {:induction false} CardToSet<T>(s: seq<T>)
    requires NoDup(s)
    ensures |ToSet(s)| == |s|
  {
    if s != [] {
      var front := s[..|s| - 1];
      CardToSet(front);
      assert s == front + [s[|s| - 1]];
      assert ToSet(s) == ToSet(front) + {s[|s| - 1]};
    }
  }

  /** A sequence as long as the set of its elements repeats nothing. */
  lemma {:induction false} FullCardNoDup<T>(s: seq<T>)
    ensures |ToSet(s)| <= |s|
    ensures |ToSet(s)| == |s| ==> NoDup(s)
  {
    if s != [] {
      var front, last := s[..|s| - 1], s[|s| - 1];
      FullCardNoDup(front);
      assert s == front + [last];
      assert ToSet(s) == ToSet(front) + {last};
    }
  }

  lemma {:induction false} SubsetCard<T>(a: set<T>, b: set<T>)
    requires a <= b
    ensures |a| <= |b|
    ensures |a| == |b| ==> a == b
  {
    if a != {} {
      var x :| x in a;
      SubsetCard(a - {x}, b - {x});
    }
  }

  lemma TakeNoDup<T>(s: seq<T>, n: nat)
    requires NoDup(s)
    ensures NoDup(Take(s, n)) && ToSet(Take(s, n)) <= ToSet(s)
    ensures |ToSet(Take(s, n))| == if n <= |s| then n else |s|
  {
    CardToSet(Take(s, n));
  }

  /** Duplicate-free sequences with the same elements are permutations of each other. */
  lemma NoDupMultiset<T>(s: seq<T>)
    requires NoDup(s)
    ensures forall x :: multiset(s)[x] == if x in s then 1 else 0
  {
    if s != [] {
      var front, last := s[..|s| - 1], s[|s| - 1];
      NoDupMultiset(front);
      assert s == front + [last];
    }
  }

  lemma MultisetNoDup<T>(a: seq<T>, b: seq<T>)
    requires multiset(a) == multiset(b) && NoDup(a)
    ensures NoDup(b) && ToSet(a) == ToSet(b) && |a| == |b|
  {
    assert forall x :: x in a <==> x in multiset(a);
    assert forall x :: x in b <==> x in multiset(b);
    assert |a| == |multiset(a)| && |b| == |multiset(b)|;
    assert ToSet(a) == ToSet(b);
    CardToSet(a);
    FullCardNoDup(b);
  }

  lemma MultisetTail<T>(a: seq<T>, b: seq<T>)
    requires a != [] && b != [] && a[0] == b[0] && multiset(a) == multiset(b)
    ensures multiset(a[1..]) == multiset(b[1..])
  {
    assert a == [a[0]] + a[1..] && b == [b[0]] + b[1..];
    assert multiset(a[1..]) == multiset(a) - multiset{a[0]};
  }
}
