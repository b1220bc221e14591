/** Comparing and rewriting the access list of one load balancer. */
module AccessLists {
  import opened Basics
  import opened Sequences
  import opened Resources
  import opened Traces
  import opened Clouds
  import opened SourceRanges

  function Addresses(items: seq<NetworkItem>): seq<string> {
    seq(|items|, i requires 0 <= i < |items| => items[i].address)
  }

  /** The comparison: same length and same set of addresses. */
  predicate SameAccess(a: seq<NetworkItem>, b: seq<NetworkItem>) {
    |a| == |b| && ToSet(Addresses(a)) == ToSet(Addresses(b))
  }

  ghost predicate Permuted(a: seq<NetworkItem>, b: seq<NetworkItem>) {
    multiset(Addresses(a)) == multiset(Addresses(b))
  }

  method AddressMap(items: seq<NetworkItem>) returns (m: set<string>)
    ensures m == ToSet(Addresses(items))
  {
    m := {};
    var all := Addresses(items);
    for i := 0 to |items|
      invariant m == ToSet(all[..i])
    {
      assert all[..i + 1] == all[..i] + [all[i]];
      m := m + {items[i].address};
    }
    assert all[..|items|] == all;
  }

  method IsAccessListModified(current: seq<NetworkItem>, desired: seq<NetworkItem>) returns (r: bool)
    ensures r <==> !SameAccess(current, desired)
  {
    if |current| != |desired| {
      return true;
    }
    var accessListMap := AddressMap(desired);
    for i := 0 to |current|
      invariant forall j :: 0 <= j < i ==> current[j].address in accessListMap
    {
      if current[i].address !in accessListMap {
        assert Addresses(current)[i] in ToSet(Addresses(current));
        return true;
      }
    }
    var activeAccessListMap := AddressMap(current);
    for i := 0 to |desired|
      invariant forall j :: 0 <= j < i ==> desired[j].address in activeAccessListMap
    {
      if desired[i].address !in activeAccessListMap {
        assert Addresses(desired)[i] in ToSet(Addresses(desired));
        return true;
      }
    }
    assert ToSet(Addresses(current)) <= ToSet(Addresses(desired));
    assert ToSet(Addresses(desired)) <= ToSet(Addresses(current));
    return false;
  }

  /** With distinct new addresses the comparison decides "is a permutation of". */
  lemma DistinctComparisonExact(current: seq<NetworkItem>, desired: seq<NetworkItem>)
    requires NoDup(Addresses(desired))
    ensures SameAccess(current, desired) <==> Permuted(current, desired)
  {
    var a, b := Addresses(current), Addresses(desired);
    if SameAccess(current, desired) {
      CardToSet(b);
      FullCardNoDup(a);
      NoDupMultiset(a);
      NoDupMultiset(b);
      assert forall x :: x in a <==> x in ToSet(a);
      assert forall x :: x in b <==> x in ToSet(b);
    }
    if Permuted(current, desired) {
      MultisetNoDup(b, a);
    }
  }

  /** A repeated address next to another one defeats the comparison. */
  lemma RepeatedAddressMissed(desired: seq<NetworkItem>, i: nat, j: nat, k: nat) returns (current: seq<NetworkItem>)
    requires i < j < |desired| && k < |desired|
    requires desired[i].address == desired[j].address != desired[k].address
    ensures SameAccess(current, desired) && !Permuted(current, desired)
  {
    current := desired[i := desired[k]];
    var a, b := Addresses(current), Addresses(desired);
    assert a == b[i := b[k]];
    assert a[j] == b[j] == b[i] && a[k] == b[k];
    forall x ensures x in a <==> x in b {
      if x in b {
        var n :| 0 <= n < |b| && b[n] == x;
        assert a[if n == i then j else n] == x;
      }
    }
    assert multiset(a)[b[i]] == multiset(b)[b[i]] - 1;
  }

  /** The comparison is right about every remote list exactly when no address is repeated beside another. */
  lemma ComparisonSoundExactly(desired: seq<NetworkItem>)
    ensures (forall current :: SameAccess(current, desired) ==> Permuted(current, desired)) <==>
              NoDup(Addresses(desired)) || |ToSet(Addresses(desired))| <= 1
  {
    var b := Addresses(desired);
    if NoDup(b) {
      forall current | SameAccess(current, desired) ensures Permuted(current, desired) {
        DistinctComparisonExact(current, desired);
      }
    } else {
      var i, j :| 0 <= i < j < |b| && b[i] == b[j];
      if k :| 0 <= k < |b| && b[k] != b[i] {
        var current := RepeatedAddressMissed(desired, i, j, k);
        assert {b[i], b[k]} <= ToSet(b);
        SubsetCard({b[i], b[k]}, ToSet(b));
      } else {
        assert ToSet(b) == {b[i]};
        forall current | SameAccess(current, desired) ensures Permuted(current, desired) {
          var a := Addresses(current);
          forall n | 0 <= n < |a| ensures a[n] == b[n] == b[i] {
            assert a[n] in ToSet(a) && b[n] in ToSet(b);
          }
          assert a == b;
        }
      }
    }
  }

  function Flipped(item: NetworkItem): NetworkItem {
    item.(access := if item.access == Allow then Deny else Allow)
  }

  /** Types are not compared: any item can stand with the other type and the lists compare as equal. */
  lemma TypeMissed(desired: seq<NetworkItem>, i: nat) returns (current: seq<NetworkItem>)
    requires i < |desired|
    ensures current == desired[i := Flipped(desired[i])]
    ensures SameAccess(current, desired) && multiset(current) != multiset(desired)
  {
    current := desired[i := Flipped(desired[i])];
    assert Addresses(current) == Addresses(desired);
    assert multiset(current)[desired[i]] == multiset(desired)[desired[i]] - 1;
  }

  /** So the comparison is right about addresses and types exactly when nothing is desired. */
  lemma TypesSoundExactly(desired: seq<NetworkItem>)
    ensures (forall current :: SameAccess(current, desired) ==> multiset(current) == multiset(desired)) <==>
              desired == []
  {
    if desired != [] {
      var current := TypeMissed(desired, 0);
    }
  }

  ghost predicate TypesAgree(a: seq<NetworkItem>, b: seq<NetworkItem>) {
    forall x, y :: x in a && y in b && x.address == y.address ==> x.access == y.access
  }

  /** With distinct new addresses, a list that compares as equal is the desired one exactly when the types agree. */
  lemma TypesDecide(current: seq<NetworkItem>, desired: seq<NetworkItem>)
    requires NoDup(Addresses(desired)) && SameAccess(current, desired)
    ensures multiset(current) == multiset(desired) <==> TypesAgree(current, desired)
  {
    var a, b := Addresses(current), Addresses(desired);
    CardToSet(b);
    FullCardNoDup(a);
    forall s: seq<NetworkItem> | s == current || s == desired
      ensures NoDup(s) && forall x, y :: x in s && y in s && x.address == y.address ==> x == y
    {
      forall i, j | 0 <= i < j < |s| ensures s[i].address != s[j].address {
        assert Addresses(s)[i] != Addresses(s)[j];
      }
    }
    NoDupMultiset(current);
    NoDupMultiset(desired);
    assert forall x :: x in current <==> x in multiset(current);
    assert forall x :: x in desired <==> x in multiset(desired);
    if TypesAgree(current, desired) {
      SameItems(current, desired);
      SameItems(desired, current);
    }
  }

  lemma SameItems(s: seq<NetworkItem>, t: seq<NetworkItem>)
    requires ToSet(Addresses(s)) == ToSet(Addresses(t)) && TypesAgree(s, t)
    ensures forall x :: x in s ==> x in t
  {
    forall x | x in s ensures x in t {
      var i :| 0 <= i < |s| && s[i] == x;
      assert Addresses(s)[i] in ToSet(Addresses(t));
      var j :| 0 <= j < |t| && Addresses(t)[j] == x.address;
      assert t[j] in t;
    }
  }

  /** The list for a set of ranges taken in some order: allow each, then deny everything. */
  function DesiredAccess(order: seq<string>): seq<NetworkItem> {
    seq(|order|, i requires 0 <= i < |order| => NetworkItem(order[i], Allow))
    + [NetworkItem(DEFAULT_SOURCE_RANGES, Deny)]
  }

  ghost predicate AccessMatches(access: seq<NetworkItem>, ranges: set<string>) {
    if ranges == {DEFAULT_SOURCE_RANGES} then access == []
    else |access| == |ranges| + 1 && ToSet(Addresses(access)) == ranges + {DEFAULT_SOURCE_RANGES}
  }

  /** The list that the service asks for, up to the order of the ranges. */
  ghost predicate Desired(access: seq<NetworkItem>, ranges: set<string>) {
    if ranges == {DEFAULT_SOURCE_RANGES} then access == []
    else exists order :: NoDup(order) && ToSet(order) == ranges && access == DesiredAccess(order)
  }

  /** What becomes of an access list: kept with its types if it compares as desired, else replaced. */
  ghost predicate AccessInLine(before: seq<NetworkItem>, now: seq<NetworkItem>, ranges: set<string>) {
    if AccessMatches(before, ranges) then now == before else Desired(now, ranges)
  }

  /** A restricted service allows exactly its ranges, denies exactly everything else, and denies last. */
  lemma DesiredMeaning(access: seq<NetworkItem>, ranges: set<string>)
    requires Desired(access, ranges) && ranges != {DEFAULT_SOURCE_RANGES}
    ensures forall x :: NetworkItem(x, Allow) in access <==> x in ranges
    ensures forall x :: NetworkItem(x, Deny) in access <==> x == DEFAULT_SOURCE_RANGES
    ensures |access| == |ranges| + 1 && access[|ranges|] == NetworkItem(DEFAULT_SOURCE_RANGES, Deny)
  {
    var order :| NoDup(order) && ToSet(order) == ranges && access == DesiredAccess(order);
    CardToSet(order);
    forall x ensures NetworkItem(x, Allow) in access <==> x in ranges {
      if x in ToSet(order) {
        var i :| 0 <= i < |order| && order[i] == x;
        assert access[i] == NetworkItem(x, Allow);
      }
    }
    assert access[|order|] in access;
  }

  lemma DesiredMatches(access: seq<NetworkItem>, ranges: set<string>)
    requires Desired(access, ranges)
    ensures AccessMatches(access, ranges)
  {
    if ranges != {DEFAULT_SOURCE_RANGES} {
      var order :| NoDup(order) && ToSet(order) == ranges && access == DesiredAccess(order);
      DesiredAddresses(order);
      CardToSet(order);
    }
  }

  /** What an interrupted call can leave of an access list that was `before`. */
  ghost predicate AccessStep(before: seq<NetworkItem>, now: seq<NetworkItem>, ranges: set<string>) {
    now == before || (!AccessMatches(before, ranges) && (now == [] || Desired(now, ranges)))
  }

  lemma AccessSteps(a: seq<NetworkItem>, b: seq<NetworkItem>, c: seq<NetworkItem>, ranges: set<string>)
    requires AccessStep(a, b, ranges)
    ensures AccessStep(b, c, ranges) ==> AccessStep(a, c, ranges)
    ensures AccessInLine(b, c, ranges) ==> AccessInLine(a, c, ranges)
  {
  }

  /** One call with a list that the service asks for. */
  lemma RewriteSteps(before: seq<NetworkItem>, now: seq<NetworkItem>, items: seq<NetworkItem>, ranges: set<string>)
    requires Desired(items, ranges)
    requires if SameAccess(before, items) then now == before else now == before || now == [] || now == items
    ensures AccessStep(before, now, ranges)
    ensures (SameAccess(before, items) || now == items) ==> AccessInLine(before, now, ranges)
  {
    DesiredMatches(items, ranges);
    MatchesBySet(before, items, ranges);
  }

  lemma InLineStep(before: seq<NetworkItem>, now: seq<NetworkItem>, ranges: set<string>)
    requires AccessInLine(before, now, ranges)
    ensures AccessStep(before, now, ranges)
  {
  }

  lemma InLineMatches(before: seq<NetworkItem>, now: seq<NetworkItem>, ranges: set<string>)
    requires AccessInLine(before, now, ranges)
    ensures AccessMatches(now, ranges)
  {
    if !AccessMatches(before, ranges) {
      DesiredMatches(now, ranges);
    }
  }

  lemma DesiredAddresses(order: seq<string>)
    ensures Addresses(DesiredAccess(order)) == order + [DEFAULT_SOURCE_RANGES]
    ensures ToSet(Addresses(DesiredAccess(order))) == ToSet(order) + {DEFAULT_SOURCE_RANGES}
  {
  }

  /** Two traversals of one set give lists that compare as the same. */
  lemma OrderIrrelevant(a: seq<string>, b: seq<string>)
    requires NoDup(a) && NoDup(b) && ToSet(a) == ToSet(b)
    ensures SameAccess(DesiredAccess(a), DesiredAccess(b))
  {
    DesiredAddresses(a);
    DesiredAddresses(b);
    CardToSet(a);
    CardToSet(b);
  }

  /** For a restricted service the comparison is right exactly when allow-all is not among its ranges. */
  lemma ServiceComparisonSoundExactly(order: seq<string>)
    requires NoDup(order) && order != [] && ToSet(order) != {DEFAULT_SOURCE_RANGES}
    ensures (forall current :: SameAccess(current, DesiredAccess(order)) ==> Permuted(current, DesiredAccess(order)))
            <==> DEFAULT_SOURCE_RANGES !in order
  {
    var d := DesiredAccess(order);
    var b := Addresses(d);
    DesiredAddresses(order);
    ComparisonSoundExactly(d);
    assert b[|order|] == DEFAULT_SOURCE_RANGES;
    assert forall i :: 0 <= i < |order| ==> b[i] == order[i];
    if DEFAULT_SOURCE_RANGES in order {
      var i :| 0 <= i < |order| && order[i] == DEFAULT_SOURCE_RANGES;
      assert b[i] == b[|order|];
      var others := ToSet(order) - {DEFAULT_SOURCE_RANGES};
      assert ToSet(order) == others + {DEFAULT_SOURCE_RANGES};
      var k :| k in others;
      assert {k, DEFAULT_SOURCE_RANGES} <= ToSet(b);
      SubsetCard({k, DEFAULT_SOURCE_RANGES}, ToSet(b));
    }
  }

  /** Comparing with one list of a set of ranges is comparing with the set. */
  lemma MatchesBySet(access: seq<NetworkItem>, items: seq<NetworkItem>, ranges: set<string>)
    requires AccessMatches(items, ranges)
    ensures SameAccess(access, items) <==> AccessMatches(access, ranges)
  {
    if ranges == {DEFAULT_SOURCE_RANGES} && |access| == 0 {
      assert access == items;
    }
  }

  /** The desired list of a service: empty for allow-all. */
  method BuildAccess(ranges: set<string>) returns (items: seq<NetworkItem>)
    ensures Desired(items, ranges)
  {
    items := [];
    var onlyAllowAll := IsOnlyAllowAll(ranges);
    if !onlyAllowAll {
      var order := StringSlice(ranges);
      for i := 0 to |order|
        invariant items == DesiredAccess(order[..i])[..i]
      {
        items := items + [NetworkItem(order[i], Allow)];
      }
      items := items + [NetworkItem(DEFAULT_SOURCE_RANGES, Deny)];
      assert order[..|order|] == order;
      assert items == DesiredAccess(order);
    }
  }

  function AccessAt(w: World, id: nat): seq<NetworkItem> {
    if id in w.lbs then w.lbs[id].access else []
  }

  /** Nothing but the access list of `id` differs. */
  ghost predicate AccessOnly(w: World, w': World, id: nat) {
    OnlyAt(w, w', id) && (id in w.lbs ==> w'.lbs[id] == w.lbs[id].(access := w'.lbs[id].access))
  }

  /** On success the list is the desired one, types included, unless the old one compares as equal and so stays. */
  method EnsureLoadBalancerAccesslists(lb: Cloud, lbID: nat, desired: seq<NetworkItem>) returns (err: Option<Error>)
    requires lb.Valid() && ActiveProtocol(lb.trace)
    modifies lb`w, lb`trace, lb`faults
    ensures lb.faults == old(lb.faults) + if err.None? then 0 else 1
    ensures lb.Valid() && ActiveProtocol(lb.trace) && AccessOnly(old(lb.w), lb.w, lbID)
    ensures Adds(old(lb.trace), lb.trace, {BalancerWrite})
    ensures var before, now := AccessAt(old(lb.w), lbID), AccessAt(lb.w, lbID);
            now == before || now == [] || now == desired
    ensures err.None? && LiveAt(lb.w, lbID) ==>
              var before := AccessAt(old(lb.w), lbID);
              AccessAt(lb.w, lbID) == if SameAccess(before, desired) then before else desired
    ensures err.None? && lb.trace == old(lb.trace) && LiveAt(lb.w, lbID) ==>
              SameAccess(AccessAt(old(lb.w), lbID), desired)
    ensures LiveAt(old(lb.w), lbID) && SameAccess(AccessAt(old(lb.w), lbID), desired) ==>
              lb.w == old(lb.w) && lb.trace == old(lb.trace)
  {
    var reply := lb.GetAccess(lbID);
    if reply.Err? && reply.error != NotFound {
      return Some(ErrApi(reply.error));
    }
    var accessLists := if reply.Ok? then reply.value else [];
    var modified := IsAccessListModified(accessLists, desired);
    if modified {
      err := RewriteAccess(lb, lbID, accessLists, desired);
      return err;
    }
    return None;
  }

  /** Deletes what is there, then posts the new list; stops early when there is nothing to post. */
  method RewriteAccess(lb: Cloud, lbID: nat, accessLists: seq<NetworkItem>, desired: seq<NetworkItem>)
    returns (err: Option<Error>)
    requires lb.Valid() && ActiveProtocol(lb.trace)
    requires accessLists == AccessAt(lb.w, lbID) || (accessLists == [] && !LiveAt(lb.w, lbID))
    modifies lb`w, lb`trace, lb`faults
    ensures lb.faults == old(lb.faults) + if err.None? then 0 else 1
    ensures lb.Valid() && ActiveProtocol(lb.trace) && AccessOnly(old(lb.w), lb.w, lbID)
    ensures var before, now := AccessAt(old(lb.w), lbID), AccessAt(lb.w, lbID);
            now == before || now == [] || now == desired
    ensures Adds(old(lb.trace), lb.trace, {BalancerWrite})
    ensures accessLists != [] || desired != [] ==> Length(lb.trace) > Length(old(lb.trace))
    ensures err.None? && LiveAt(lb.w, lbID) ==> AccessAt(lb.w, lbID) == desired
  {
    hide Cloud.Valid, AccessOnly;
    ghost var w0 := lb.w;
    err := ClearAccess(lb, lbID, accessLists);
    if err.Some? {
      return err;
    }
    ghost var w1 := lb.w;
    if |desired| == 0 {
      return None;
    }
    var e := lb.CreateAccess(lbID, desired);
    AccessSetOnly(w1, lb.w, lbID, AccessAt(w1, lbID) + desired);
    AccessOnlyTransitive(w0, w1, lb.w, lbID);
    if e.Some? && e.value != NotFound {
      return Some(ErrApi(e.value));
    }
    return None;
  }

  /** Deletes the list if there is one. */
  method ClearAccess(lb: Cloud, lbID: nat, accessLists: seq<NetworkItem>) returns (err: Option<Error>)
    requires lb.Valid() && ActiveProtocol(lb.trace)
    requires accessLists == AccessAt(lb.w, lbID) || (accessLists == [] && !LiveAt(lb.w, lbID))
    modifies lb`w, lb`trace, lb`faults
    ensures lb.faults == old(lb.faults) + if err.None? then 0 else 1
    ensures lb.Valid() && ActiveProtocol(lb.trace) && AccessOnly(old(lb.w), lb.w, lbID)
    ensures AccessAt(lb.w, lbID) == AccessAt(old(lb.w), lbID) || AccessAt(lb.w, lbID) == []
    ensures Adds(old(lb.trace), lb.trace, {BalancerWrite})
    ensures Length(lb.trace) == Length(old(lb.trace)) + if accessLists == [] then 0 else 1
    ensures accessLists == [] ==> err.None?
    ensures err.None? ==> AccessAt(lb.w, lbID) == [] || !LiveAt(lb.w, lbID)
  {
    if |accessLists| != 0 {
      var e := lb.DeleteAccess(lbID);
      if e.Some? && e.value != NotFound {
        return Some(ErrApi(e.value));
      }
    }
    return None;
  }

  lemma AccessSetOnly(w: World, w': World, id: nat, items: seq<NetworkItem>)
    ensures w' == w || AccessSet(w, w', id, items) ==> AccessOnly(w, w', id)
    ensures AccessSet(w, w', id, items) ==> AccessAt(w', id) == items
  {
  }

  lemma AccessOnlyTransitive(w0: World, w1: World, w2: World, id: nat)
    requires AccessOnly(w0, w1, id) && AccessOnly(w1, w2, id)
    ensures AccessOnly(w0, w2, id)
  {
  }
}
