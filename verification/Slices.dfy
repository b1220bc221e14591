/** Go slices: a view of the first `len` cells of a shared array. */
module Slices {

  datatype Slice<T> = Slice(arr: array<T>, len: nat) {

    ghost predicate Valid() {
      len <= arr.Length
    }

    ghost function View(): seq<T>
      requires Valid()
      reads arr
    {
      arr[..len]
    }
  }

  /** Overwrite position `i` with the last element and drop the last position. */
  function SwapRemove<T>(s: seq<T>, i: nat): seq<T>
    requires i < |s|
  {
    s[i := s[|s| - 1]][..|s| - 1]
  }

  /** Position `i` got the last element, and the last position is gone. */
  ghost predicate Overwritten<T>(before: seq<T>, after: seq<T>, i: nat) {
    && i < |before| && |after| == |before| - 1
    && forall j :: 0 <= j < |after| ==> after[j] == if j == i then before[|after|] else before[j]
  }

  lemma SwapRemoveMeaning<T>(s: seq<T>, i: nat)
    requires i < |s|
    ensures Overwritten(s, SwapRemove(s, i), i)
  {
  }

  lemma SwapRemoveMultiset<T>(s: seq<T>, i: nat)
    requires i < |s|
    ensures multiset(SwapRemove(s, i)) + multiset{s[i]} == multiset(s)
    ensures |SwapRemove(s, i)| == |s| - 1
  {
    var last := |s| - 1;
    if i == last {
      assert SwapRemove(s, i) == s[..last] && s == s[..last] + [s[last]];
    } else {
      assert s == s[..i] + [s[i]] + s[i + 1..last] + [s[last]];
      assert SwapRemove(s, i) == s[..i] + [s[last]] + s[i + 1..last];
    }
  }

  /** Deletes position `i` in place; the array keeps its last cell. */
  method DropAt<T>(s: Slice<T>, i: nat) returns (r: Slice<T>)
    requires s.Valid() && i < s.len
    modifies s.arr
    ensures r.Valid() && r.arr == s.arr && r.len == s.len - 1
    ensures r.View() == SwapRemove(old(s.View()), i)
    ensures s.View() == old(s.View())[i := old(s.View())[s.len - 1]]
    ensures forall j :: 0 <= j < s.arr.Length && j != i ==> s.arr[j] == old(s.arr[j])
  {
    ghost var v := s.View();
    s.arr[i] := s.arr[s.len - 1];
    r := Slice(s.arr, s.len - 1);
    assert s.View() == v[i := v[s.len - 1]];
    assert r.View() == s.View()[..r.len];
  }

  /** Go's append: in place while there is capacity, otherwise into a new array. */
  method Append<T(0)>(s: Slice<T>, x: T) returns (r: Slice<T>)
    requires s.Valid()
    modifies s.arr
    ensures r.Valid() && r.View() == old(s.View()) + [x]
    ensures s.View() == old(s.View())
    ensures r.arr == s.arr || fresh(r.arr)
  {
    if s.len < s.arr.Length {
      s.arr[s.len] := x;
      r := Slice(s.arr, s.len + 1);
    } else {
      var grown := new T[2 * s.len + 1];
      forall i | 0 <= i < s.len {
        grown[i] := s.arr[i];
      }
      grown[s.len] := x;
      r := Slice(grown, s.len + 1);
    }
  }

  /** A new slice holding `s`, with any spare capacity. */
  method Make<T(0)>(s: seq<T>) returns (r: Slice<T>)
    ensures r.Valid() && fresh(r.arr) && r.View() == s
  {
    var spare: nat :| true;
    var arr := new T[|s| + spare];
    forall i | 0 <= i < |s| {
      arr[i] := s[i];
    }
    r := Slice(arr, |s|);
  }
}
