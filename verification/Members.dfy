/** Bringing the members of one load balancer in line with the node list. */
module Members {
  import opened Basics
  import opened Sequences
  import opened Sorting
  import opened Slices
  import opened Resources
  import opened Traces
  import opened Clouds
  import opened Polling
  import opened Membership

  function Keys(ms: seq<Member>): set<Key> {
    set m | m in ms :: m.key
  }

  /** The members with this key, and the members without it, in order. */
  function WithKey(s: seq<Member>, key: Key): seq<Member> {
    if s == [] then []
    else WithKey(s[..|s| - 1], key) + if s[|s| - 1].key == key then [s[|s| - 1]] else []
  }

  function WithoutKey(s: seq<Member>, key: Key): seq<Member> {
    if s == [] then []
    else WithoutKey(s[..|s| - 1], key) + if s[|s| - 1].key == key then [] else [s[|s| - 1]]
  }

  lemma {:induction false} KeySplit(s: seq<Member>, key: Key)
    ensures multiset(WithKey(s, key)) + multiset(WithoutKey(s, key)) == multiset(s)
    ensures |WithKey(s, key)| + |WithoutKey(s, key)| == |s|
  {
    if s != [] {
      var front, last := s[..|s| - 1], s[|s| - 1];
      KeySplit(front, key);
      assert s == front + [last];
      if last.key == key {
        assert WithKey(s, key) == WithKey(front, key) + [last] && WithoutKey(s, key) == WithoutKey(front, key);
      } else {
        assert WithKey(s, key) == WithKey(front, key) && WithoutKey(s, key) == WithoutKey(front, key) + [last];
      }
    }
  }

  lemma {:induction false} WithoutKeyElements(s: seq<Member>, key: Key)
    ensures forall m :: m in WithoutKey(s, key) <==> m in s && m.key != key
  {
    if s != [] {
      WithoutKeyElements(s[..|s| - 1], key);
      assert s == s[..|s| - 1] + [s[|s| - 1]];
    }
  }

  /**
   * popNode keeps ranging over the original length of the slice that it shrinks: every match must still
   * lie within what is left of it when it is reached.
   */
  ghost predicate PopInBounds(s: seq<Member>, key: Key) {
    InBoundsUpTo(s, key, |s|)
  }

  ghost predicate InBoundsUpTo(s: seq<Member>, key: Key, n: nat)
    requires n <= |s|
  {
    forall i :: 0 <= i < n && s[i].key == key ==> i + |WithKey(s[..i], key)| < |s|
  }

  lemma {:induction false} WithKeyMonotone(s: seq<Member>, key: Key, i: nat, j: nat)
    requires i <= j <= |s|
    ensures |WithKey(s[..i], key)| <= |WithKey(s[..j], key)|
    ensures (forall k :: i <= k < j ==> s[k].key != key) ==> |WithKey(s[..i], key)| == |WithKey(s[..j], key)|
    decreases j
  {
    if i < j {
      WithKeyMonotone(s, key, i, j - 1);
      assert s[..j][..j - 1] == s[..j - 1];
    }
  }

  /** With several matches, popNode stays in bounds exactly when enough other members follow the last match. */
  lemma PopInBoundsExactly(s: seq<Member>, key: Key, last: nat)
    requires last < |s| && s[last].key == key
    requires forall k :: last < k < |s| ==> s[k].key != key
    ensures PopInBounds(s, key) <==> |s| - 1 - last >= |WithKey(s, key)| - 1
  {
    assert s[..|s|] == s && s[..last + 1][..last] == s[..last];
    WithKeyMonotone(s, key, last + 1, |s|);
    assert |WithKey(s[..last], key)| == |WithKey(s, key)| - 1;
    forall i | 0 <= i < |s| && s[i].key == key
      ensures i + |WithKey(s[..i], key)| <= last + |WithKey(s[..last], key)|
    {
      assert i <= last;
      WithKeyMonotone(s, key, i, last);
    }
  }

  /** Two of three members with the key, the second of them last: popNode runs out of range. */
  lemma PopOverruns(key: Key, other: Key)
    requires key != other
    ensures !PopInBounds([Member(1, key), Member(2, other), Member(3, key)], key)
  {
    var s := [Member(1, key), Member(2, other), Member(3, key)];
    assert |WithKey(s[..1], key)| == 1 && s[..2][..1] == s[..1];
    assert |WithKey(s[..2], key)| == 1;
    assert s[2].key == key;
  }

  /** Members with distinct keys are always in bounds. */
  lemma DistinctPopInBounds(s: seq<Member>, key: Key)
    requires DistinctMembers(s)
    ensures PopInBounds(s, key)
  {
    forall i | 0 <= i < |s| && s[i].key == key ensures |WithKey(s[..i], key)| == 0 {
      assert s[..0] == [];
      WithKeyMonotone(s, key, 0, i);
    }
  }

  lemma WithKeyNext(s: seq<Member>, i: nat, key: Key)
    requires i < |s|
    ensures WithKey(s[..i + 1], key) == WithKey(s[..i], key) + if s[i].key == key then [s[i]] else []
  {
    assert s[..i + 1][..i] == s[..i];
  }

  lemma PopStep(s: seq<Member>, i: nat, key: Key, view: seq<Member>)
    requires i < |s| && i < |view| && view[i] == s[i] && s[i].key == key
    requires multiset(view) + multiset(WithKey(s[..i], key)) == multiset(s)
    ensures multiset(SwapRemove(view, i)) + multiset(WithKey(s[..i + 1], key)) == multiset(s)
    ensures |WithKey(s[..i + 1], key)| == |WithKey(s[..i], key)| + 1
  {
    SwapRemoveMultiset(view, i);
    assert s[..i + 1][..i] == s[..i];
    assert WithKey(s[..i + 1], key) == WithKey(s[..i], key) + [s[i]];
  }

  /** The slice after the loop has passed `i` positions, as long as it stays in bounds. */
  function PopView(s: seq<Member>, key: Key, i: nat): seq<Member>
    requires i <= |s|
  {
    if i == 0 then s
    else
      var view := PopView(s, key, i - 1);
      if s[i - 1].key == key && i - 1 < |view| then SwapRemove(view, i - 1) else view
  }

  lemma {:induction false} PopViewTail(s: seq<Member>, key: Key, i: nat)
    requires i <= |s|
    ensures forall j :: i <= j < |PopView(s, key, i)| <= |s| ==> PopView(s, key, i)[j] == s[j]
    ensures |PopView(s, key, i)| <= |s|
  {
    if i > 0 {
      PopViewTail(s, key, i - 1);
    }
  }

  lemma {:induction false} PopViewMultiset(s: seq<Member>, key: Key, i: nat)
    requires i <= |s| && InBoundsUpTo(s, key, i)
    ensures multiset(PopView(s, key, i)) + multiset(WithKey(s[..i], key)) == multiset(s)
    ensures |PopView(s, key, i)| + |WithKey(s[..i], key)| == |s|
  {
    if i > 0 {
      var k, view := i - 1, PopView(s, key, i - 1);
      PopViewMultiset(s, key, k);
      if s[k].key == key {
        assert k + |WithKey(s[..k], key)| < |s|;
        PopViewTail(s, key, k);
        PopStep(s, k, key, view);
      } else {
        WithKeyNext(s, k, key);
      }
    }
  }

  /** Position `i` can be overwritten exactly when the bounds condition extends to it. */
  lemma PopGuard(s: seq<Member>, key: Key, i: nat)
    requires i < |s| && InBoundsUpTo(s, key, i)
    ensures if s[i].key == key && |PopView(s, key, i)| <= i then !PopInBounds(s, key) else InBoundsUpTo(s, key, i + 1)
  {
    PopViewMultiset(s, key, i);
  }

  lemma PopComplete(s: seq<Member>, key: Key)
    requires PopInBounds(s, key)
    ensures multiset(PopView(s, key, |s|)) == multiset(WithoutKey(s, key))
  {
    var view := PopView(s, key, |s|);
    assert s[..|s|] == s;
    PopViewMultiset(s, key, |s|);
    KeySplit(s, key);
    assert multiset(view) == multiset(s) - multiset(WithKey(s, key));
    assert multiset(WithoutKey(s, key)) == multiset(s) - multiset(WithKey(s, key));
  }

  /** `ok` is false where the Go runtime stops with an index out of range. */
  method PopNode(nodes: Slice<Member>, addr: string, port: int) returns (ok: bool, rest: Slice<Member>)
    requires nodes.Valid()
    modifies nodes.arr
    ensures ok <==> PopInBounds(old(nodes.View()), Key(addr, port))
    ensures ok ==> rest.Valid() && rest.arr == nodes.arr
    ensures ok ==> multiset(rest.View()) == multiset(WithoutKey(old(nodes.View()), Key(addr, port)))
  {
    ghost var s, key := nodes.View(), Key(addr, port);
    rest := nodes;
    for i := 0 to nodes.len
      invariant rest.arr == nodes.arr && rest.len <= nodes.len
      invariant rest.View() == PopView(s, key, i)
      invariant forall j :: i <= j < |s| ==> nodes.arr[j] == s[j]
      invariant InBoundsUpTo(s, key, i)
    {
      var node := nodes.arr[i];
      PopGuard(s, key, i);
      if node.key.address == addr && node.key.port == port {
        if i >= rest.len {
          return false, rest;
        }
        rest := DropAt(rest, i);
      }
    }
    PopComplete(s, key);
    ok := true;
  }

  method NodeExists(nodes: Slice<Member>, addr: string, port: int) returns (r: bool)
    requires nodes.Valid()
    ensures r <==> Key(addr, port) in Keys(nodes.View())
  {
    for i := 0 to nodes.len
      invariant forall m :: m in nodes.arr[..i] ==> m.key != Key(addr, port)
    {
      if nodes.arr[i].key.address == addr && nodes.arr[i].key.port == port {
        assert nodes.arr[i] in nodes.View();
        return true;
      }
    }
    return false;
  }

  lemma DistinctMembersPermute(s: seq<Member>, t: seq<Member>)
    requires multiset(s) == multiset(t) && DistinctMembers(s)
    ensures DistinctMembers(t)
  {
    assert NoDup(s);
    MultisetNoDup(s, t);
    forall i, j | 0 <= i < j < |t| ensures t[i].id != t[j].id && t[i].key != t[j].key {
      assert t[i] in ToSet(t) && t[j] in ToSet(t);
      assert t[i] in s && t[j] in s && t[i] != t[j];
    }
  }

  lemma {:induction false} WithoutKeyDistinct(s: seq<Member>, key: Key)
    requires DistinctMembers(s)
    ensures DistinctMembers(WithoutKey(s, key))
  {
    if s != [] {
      var front := s[..|s| - 1];
      WithoutKeyDistinct(front, key);
      WithoutKeyElements(front, key);
    }
  }

  ghost predicate Unmatched(all: seq<Member>, d: seq<Key>, rest: seq<Member>) {
    DistinctMembers(rest) && forall m :: m in rest <==> m in all && m.key !in d
  }

  /** Splits what is there and what is wanted into members to delete and keys to add. */
  method MatchNodes(memberNodes: Slice<Member>, nodes: array<Node>, nodePort: int)
    returns (err: Option<Error>, addNodes: seq<Key>, rest: Slice<Member>)
    requires memberNodes.Valid() && DistinctMembers(memberNodes.View()) && ProperNodes(nodes[..])
    modifies memberNodes.arr
    ensures nodes[..] == old(nodes[..])
    ensures err.None? <==> AllAddressed(nodes[..])
    ensures err.None? ==>
              && addNodes == Except(Wanted(nodes[..], nodePort), Keys(old(memberNodes.View())))
              && rest.Valid() && rest.arr == memberNodes.arr
              && Unmatched(old(memberNodes.View()), Wanted(nodes[..], nodePort), rest.View())
  {
    hide Except, Unmatched, PopInBounds, WithoutKey, Keys, ProperNodes;
    ghost var all := memberNodes.View();
    ghost var ns := nodes[..];
    ghost var d := Wanted(ns, nodePort);
    NothingMatched(all);
    addNodes, rest := [], memberNodes;
    assert d[..0] == [];
    for i := 0 to nodes.Length
      invariant nodes[..] == ns && rest.Valid() && rest.arr == memberNodes.arr
      invariant forall j :: 0 <= j < i ==> HasAddress(ns[j])
      invariant addNodes == Except(d[..i], Keys(all))
      invariant Unmatched(all, d[..i], rest.View())
    {
      var node := nodes[i];
      assert node == ns[i];
      var address := NodeAddressForLB(node);
      if address.Fail? {
        assert node in ns && !HasAddress(node);
        AddressErrorIsNeverNotFound(node.addresses);
        if address.error == ErrNotFound {
          continue;
        }
        return Some(address.error), addNodes, rest;
      }
      var addr := address.value;
      WantedNext(ns, nodePort, i, Keys(all));
      var present := NodeExists(rest, addr, nodePort);
      StillThere(all, d[..i], rest.View(), d[i]);
      if !present {
        addNodes := addNodes + [Key(addr, nodePort)];
      } else {
        ghost var before := rest.View();
        UnmatchedInBounds(all, d[..i], before, d[i]);
        var ok;
        ok, rest := PopNode(rest, addr, nodePort);
        assert ok;
        Popped(before, d[i], rest.View(), all, d[..i]);
      }
    }
    assert d[..nodes.Length] == d;
    err := None;
  }

  lemma NothingMatched(all: seq<Member>)
    requires DistinctMembers(all)
    ensures Unmatched(all, [], all) && Except([], Keys(all)) == []
  {
  }

  /** The next wanted key is new, and is to be added exactly when it was not there. */
  lemma WantedNext(ns: seq<Node>, nodePort: int, i: nat, k: set<Key>)
    requires ProperNodes(ns) && i < |ns| && forall j :: 0 <= j <= i ==> HasAddress(ns[j])
    ensures var d := Wanted(ns, nodePort);
            && d[i] == Key(AddressOf(ns[i]), nodePort) && d[i] !in d[..i]
            && d[..i + 1] == d[..i] + [d[i]]
            && Except(d[..i + 1], k) == if d[i] in k then Except(d[..i], k) else Except(d[..i], k) + [d[i]]
  {
  }

  lemma UnmatchedInBounds(all: seq<Member>, d: seq<Key>, s: seq<Member>, key: Key)
    requires Unmatched(all, d, s)
    ensures PopInBounds(s, key)
  {
    DistinctPopInBounds(s, key);
  }

  /** After popping, exactly the members with other keys are left. */
  lemma Popped(s: seq<Member>, key: Key, t: seq<Member>, all: seq<Member>, d: seq<Key>)
    requires Unmatched(all, d, s) && multiset(t) == multiset(WithoutKey(s, key))
    ensures Unmatched(all, d + [key], t)
  {
    WithoutKeyElements(s, key);
    WithoutKeyDistinct(s, key);
    DistinctMembersPermute(WithoutKey(s, key), t);
    assert forall m :: m in t <==> m in multiset(t);
    assert forall m :: m in WithoutKey(s, key) <==> m in multiset(WithoutKey(s, key));
  }

  /** A key wanted for the first time is still among the rest exactly when it was there at the start. */
  lemma StillThere(all: seq<Member>, d: seq<Key>, rest: seq<Member>, key: Key)
    requires Unmatched(all, d, rest) && key !in d
    ensures key in Keys(rest) <==> key in Keys(all)
    ensures key !in Keys(rest) ==> Unmatched(all, d + [key], rest)
  {
    forall m | m in all && m.key == key ensures m in rest {}
    if key !in Keys(rest) {
      forall m | m in rest ensures m.key != key {
        assert m.key in Keys(rest);
      }
    }
  }

  function MembersAt(w: World, id: nat): seq<Member> {
    if id in w.lbs then w.lbs[id].members else []
  }

  lemma NodesOnlyTransitive(w0: World, w1: World, w2: World, id: nat)
    requires NodesOnly(w0, w1, id) && NodesOnly(w1, w2, id)
    ensures NodesOnly(w0, w2, id)
  {
  }

  /** One delete call, whatever it answered. */
  lemma DeleteEffect(w: World, w1: World, id: nat, m: Member)
    requires ValidWorld(w) && m in MembersAt(w, id)
    requires w1 == w || MemberRemoved(w, w1, id, m.id)
    ensures NodesOnly(w, w1, id)
    ensures MemberRemoved(w, w1, id, m.id) ==> ToSet(MembersAt(w1, id)) == ToSet(MembersAt(w, id)) - {m}
    ensures ToSet(MembersAt(w, id)) - {m} <= ToSet(MembersAt(w1, id)) <= ToSet(MembersAt(w, id))
  {
    var ms := MembersAt(w, id);
    WithoutMemberElements(ms, m.id);
    assert ValidRecord(id, w.lbs[id], w.vips);
    forall x | x in ms && x.id == m.id ensures x == m {}
  }

  /** Deletes the obsolete members one by one, waiting for ACTIVE after each. */
  method DeleteObsolete(lb: Cloud, id: nat, obsolete: seq<Member>) returns (err: Option<Error>)
    requires lb.Valid() && Ready(lb.trace, id) && ActiveProtocol(lb.trace)
    requires NoDup(obsolete) && forall m :: m in obsolete ==> m in MembersAt(lb.w, id)
    modifies lb`w, lb`trace, lb`faults
    ensures lb.Valid() && NodesOnly(old(lb.w), lb.w, id) && ActiveProtocol(lb.trace)
    ensures Adds(old(lb.trace), lb.trace, {Poll, NodeWrite})
    ensures Accounted(err.None?, old(lb.faults), old(lb.trace), lb.faults, lb.trace)
    ensures obsolete == [] ==> err.None? && lb.w == old(lb.w) && lb.trace == old(lb.trace)
    ensures ToSet(MembersAt(old(lb.w), id)) - ToSet(obsolete)
            <= ToSet(MembersAt(lb.w, id)) <= ToSet(MembersAt(old(lb.w), id))
    ensures err.None? ==>
              && Ready(lb.trace, id)
              && ToSet(MembersAt(lb.w, id)) == ToSet(MembersAt(old(lb.w), id)) - ToSet(obsolete)
              && NodeWrites(lb.trace, id) == NodeWrites(old(lb.trace), id) + |obsolete|
  {
    ghost var w0, t0 := lb.w, lb.trace;
    for i := 0 to |obsolete|
      invariant lb.Valid() && NodesOnly(w0, lb.w, id) && ActiveProtocol(lb.trace) && Ready(lb.trace, id)
      invariant ToSet(MembersAt(lb.w, id)) == ToSet(MembersAt(w0, id)) - ToSet(obsolete[..i])
      invariant NodeWrites(lb.trace, id) == NodeWrites(t0, id) + i
      invariant lb.faults == old(lb.faults) && Adds(t0, lb.trace, {Poll, NodeWrite})
      invariant i == 0 ==> lb.w == w0 && lb.trace == t0
    {
      ghost var t1 := lb.trace;
      err := DeleteOne(lb, id, obsolete[i], w0, obsolete, i);
      AddsThen(t0, t1, lb.trace, {Poll, NodeWrite}, {Poll, NodeWrite}, {Poll, NodeWrite});
      AccountedLater(old(lb.faults), t0, t1, lb.faults, lb.trace, {Poll, NodeWrite}, err.None?);
      if err.Some? {
        return err;
      }
    }
    assert obsolete[..|obsolete|] == obsolete;
    return None;
  }

  /** One round of the delete loop. */
  method DeleteOne(lb: Cloud, id: nat, node: Member, ghost w0: World, ghost obsolete: seq<Member>, ghost i: nat)
    returns (err: Option<Error>)
    requires lb.Valid() && Ready(lb.trace, id) && ActiveProtocol(lb.trace)
    requires NoDup(obsolete) && i < |obsolete| && obsolete[i] == node
    requires forall m :: m in obsolete ==> m in MembersAt(w0, id)
    requires NodesOnly(w0, lb.w, id)
    requires ToSet(MembersAt(lb.w, id)) == ToSet(MembersAt(w0, id)) - ToSet(obsolete[..i])
    modifies lb`w, lb`trace, lb`faults
    ensures lb.Valid() && NodesOnly(w0, lb.w, id) && ActiveProtocol(lb.trace)
    ensures Adds(old(lb.trace), lb.trace, {Poll, NodeWrite})
    ensures Accounted(err.None?, old(lb.faults), old(lb.trace), lb.faults, lb.trace)
    ensures ToSet(MembersAt(w0, id)) - ToSet(obsolete) <= ToSet(MembersAt(lb.w, id)) <= ToSet(MembersAt(w0, id))
    ensures err.None? ==>
              && Ready(lb.trace, id)
              && ToSet(MembersAt(lb.w, id)) == ToSet(MembersAt(w0, id)) - ToSet(obsolete[..i + 1])
              && NodeWrites(lb.trace, id) == NodeWrites(old(lb.trace), id) + 1
  {
    ghost var w1 := lb.w;
    NextObsolete(MembersAt(w0, id), MembersAt(w1, id), obsolete, i);
    var e := lb.DeleteNode(id, node.id);
    ghost var w2 := lb.w;
    DeleteEffect(w1, w2, id, node);
    NodesOnlyTransitive(w0, w1, w2, id);
    if e.Some? && e.value != NotFound {
      return Some(ErrApi(e.value));
    }
    ghost var t := lb.trace;
    err := WaitLoadbalancerActiveStatus(lb, id);
    PollsWriteNothing(t, lb.trace, id);
    AddsThen(old(lb.trace), t, lb.trace, {NodeWrite}, {Poll}, {Poll, NodeWrite});
    WaitAccounted(lb.faults, old(lb.trace), t, lb.trace, id, err, {NodeWrite});
    SettledMembers(w2, lb.w, id);
    NodesOnlyTransitive(w0, w2, lb.w, id);
  }

  lemma SettledMembers(w: World, w': World, id: nat)
    requires Settled(w, w', id)
    ensures NodesOnly(w, w', id) && MembersAt(w, id) == MembersAt(w', id)
    ensures LiveAt(w, id) <==> LiveAt(w', id)
  {
  }

  /** The next obsolete member is still there, and deleting it covers one more. */
  lemma NextObsolete(all: seq<Member>, now: seq<Member>, obsolete: seq<Member>, i: nat)
    requires NoDup(obsolete) && i < |obsolete| && forall m :: m in obsolete ==> m in all
    requires ToSet(now) == ToSet(all) - ToSet(obsolete[..i])
    ensures obsolete[i] in now
    ensures ToSet(now) - {obsolete[i]} == ToSet(all) - ToSet(obsolete[..i + 1])
    ensures ToSet(all) - ToSet(obsolete) <= ToSet(now) - {obsolete[i]} <= ToSet(now) <= ToSet(all)
  {
    assert obsolete[i] !in obsolete[..i];
    assert obsolete[i] in ToSet(all) - ToSet(obsolete[..i]);
    assert obsolete[..i + 1] == obsolete[..i] + [obsolete[i]];
    assert obsolete == obsolete[..i] + obsolete[i..];
  }

  lemma {:induction false} KeysCard(ms: seq<Member>)
    requires DistinctMembers(ms)
    ensures |Keys(ms)| == |ms|
  {
    if ms != [] {
      var front, last := ms[..|ms| - 1], ms[|ms| - 1];
      KeysCard(front);
      assert ms == front + [last];
      assert Keys(ms) == Keys(front) + {last.key};
      assert last.key !in Keys(front);
    }
  }

  /** Between nothing and everything obsolete deleted, the wanted keys that were there remain. */
  lemma ObsoleteKeys(all: seq<Member>, d: seq<Key>, rest: seq<Member>, ms: seq<Member>)
    requires DistinctMembers(all) && Unmatched(all, d, rest)
    requires ToSet(all) - ToSet(rest) <= ToSet(ms) <= ToSet(all)
    ensures |rest| == |Keys(all) - ToSet(d)|
    ensures Keys(all) * ToSet(d) <= Keys(ms) <= Keys(all)
    ensures ToSet(ms) == ToSet(all) - ToSet(rest) ==> Keys(ms) == Keys(all) * ToSet(d)
  {
    KeysCard(rest);
    assert Keys(rest) == Keys(all) - ToSet(d);
    forall k | k in Keys(all) * ToSet(d) ensures k in Keys(ms) {
      var m :| m in all && m.key == k;
      assert m in ToSet(all) - ToSet(rest);
      assert m in ToSet(ms);
    }
    forall k | k in Keys(ms) ensures k in Keys(all) && (ToSet(ms) == ToSet(all) - ToSet(rest) ==> k in ToSet(d)) {
      var m :| m in ms && m.key == k;
      assert m in ToSet(ms);
    }
  }

  /** Adding members adds exactly their keys. */
  lemma AddedKeys(w: World, w': World, id: nat, keys: seq<Key>)
    requires MembersAdded(w, w', id, keys)
    ensures NodesOnly(w, w', id)
    ensures Keys(MembersAt(w', id)) == Keys(MembersAt(w, id)) + ToSet(keys)
  {
    var ms, ms' := MembersAt(w, id), MembersAt(w', id);
    var added := ms'[|ms|..];
    assert ms' == ms + added;
    assert Keys(ms') == Keys(ms) + Keys(added);
    forall i | 0 <= i < |keys| ensures added[i].key == keys[i] {
      assert added[i] == ms'[|ms| + i];
    }
    forall k | k in ToSet(keys) ensures k in Keys(added) {
      var i :| 0 <= i < |keys| && keys[i] == k;
      assert added[i] in added;
    }
  }

  /** Sorts the caller's nodes by name; the library promises a sorted permutation. */
  method SortNodes(nodes: array<Node>)
    requires DistinctKeys(nodes[..], NodeName)
    modifies nodes
    ensures nodes[..] == Sort(old(nodes[..]), NodeName)
  {
    var sorted := Sort(nodes[..], NodeName);
    SortSorts(nodes[..], NodeName);
    assert |sorted| == |multiset(sorted)| == |multiset(nodes[..])| == nodes.Length;
    forall i | 0 <= i < nodes.Length {
      nodes[i] := sorted[i];
    }
    assert nodes[..] == sorted;
  }

  /** What is to be added after the deletions, given the number of members fetched again. */
  function Allowed(addNodes: seq<Key>, members: nat): seq<Key> {
    var allowedToAdd := if MAX_NODE_LIMIT - members < 0 then 0 else MAX_NODE_LIMIT - members;
    if allowedToAdd < |addNodes| then addNodes[..allowedToAdd] else addNodes
  }

  ghost function Writes(k: set<Key>, d: seq<Key>): nat {
    |k - ToSet(d)| + if Take(Except(d, k), Room(|k * ToSet(d)|)) == [] then 0 else 1
  }

  /** Once reconciled, another run has nothing to write. */
  lemma NoWritesWhenDone(k: set<Key>, d: seq<Key>)
    requires NoDup(d)
    ensures Writes(FinalKeys(k, d), d) == 0
  {
    FinalIdempotent(k, d);
  }

  method EnsureLoadBalancerNodes(lb: Cloud, lbID: nat, nodePort: int, nodes: array<Node>) returns (err: Option<Error>)
    requires lb.Valid() && Ready(lb.trace, lbID) && ActiveProtocol(lb.trace)
    requires ProperNodes(nodes[..])
    modifies lb`w, lb`trace, lb`faults, nodes
    ensures lb.Valid() && NodesOnly(old(lb.w), lb.w, lbID) && ActiveProtocol(lb.trace)
    ensures nodes[..] == old(nodes[..]) || nodes[..] == NodeOrder(old(nodes[..]))
    ensures !AllAddressed(old(nodes[..])) ==> err.Some? && lb.w == old(lb.w) && lb.trace == old(lb.trace)
    ensures Adds(old(lb.trace), lb.trace, {Poll, NodeWrite})
    ensures err.None? || (LiveAt(old(lb.w), lbID) && AllAddressed(old(nodes[..]))) ==>
              Accounted(err.None?, old(lb.faults), old(lb.trace), lb.faults, lb.trace)
    ensures LiveAt(old(lb.w), lbID)
            && Writes(Keys(MembersAt(old(lb.w), lbID)), Wanted(NodeOrder(old(nodes[..])), nodePort)) == 0 ==>
              Adds(old(lb.trace), lb.trace, {Poll})
    ensures AllAddressed(old(nodes[..])) ==>
              Partial(Keys(MembersAt(old(lb.w), lbID)), Wanted(NodeOrder(old(nodes[..])), nodePort),
                      Keys(MembersAt(lb.w, lbID)))
    ensures err.None? ==>
              && nodes[..] == NodeOrder(old(nodes[..])) && AllAddressed(nodes[..])
              && Ready(lb.trace, lbID) && LiveAt(lb.w, lbID)
              && OfNodes(Keys(MembersAt(lb.w, lbID)), old(nodes[..]), nodePort)
              && Keys(MembersAt(lb.w, lbID)) == FinalKeys(Keys(MembersAt(old(lb.w), lbID)), Wanted(nodes[..], nodePort))
              && NodeWrites(lb.trace, lbID) ==
                 NodeWrites(old(lb.trace), lbID) + Writes(Keys(MembersAt(old(lb.w), lbID)), Wanted(nodes[..], nodePort))
  {
    hide OfNodes;
    ghost var w0, ns := lb.w, nodes[..];
    NodeOrderPermutes(ns);
    PermutedNodes(ns, NodeOrder(ns), nodePort);
    var fetched := FetchMembers(lb, lbID);
    if fetched.Fail? {
      return Some(fetched.error);
    }
    var memberNodes := Make(fetched.value);
    if nodes.Length > MAX_NODE_LIMIT {
      SortNodes(nodes);
    }
    var addNodes, rest;
    err, addNodes, rest := MatchNodes(memberNodes, nodes, nodePort);
    if err.Some? {
      return err;
    }
    WantedNoDup(nodes[..], nodePort);
    FinalOfNodes(Keys(MembersAt(w0, lbID)), ns, nodePort);
    err := ApplyNodes(lb, lbID, fetched.value, Wanted(nodes[..], nodePort), addNodes, rest.arr[..rest.len]);
  }

  /** getNodesByLBID, with a missing load balancer read as one without members. */
  method FetchMembers(lb: Cloud, lbID: nat) returns (r: Result<seq<Member>>)
    requires lb.Valid()
    modifies lb`faults
    ensures lb.faults == old(lb.faults) + if r.Success? then 0 else 1
    ensures r.Success? ==> r.value == MembersAt(lb.w, lbID) || (r.value == [] && !LiveAt(lb.w, lbID))
    ensures r.Success? ==> DistinctMembers(r.value)
  {
    var reply := lb.ListNodes(lbID);
    assert lbID in lb.w.lbs ==> ValidRecord(lbID, lb.w.lbs[lbID], lb.w.vips);
    if reply.Err? && reply.error != NotFound {
      return Fail(ErrApi(reply.error));
    }
    return Success(if reply.Ok? then reply.value else []);
  }

  /** The writes: delete what is obsolete, fetch again, add what still fits, wait. */
  method ApplyNodes(lb: Cloud, lbID: nat, ghost all: seq<Member>, ghost d: seq<Key>, add: seq<Key>,
                    obsolete: seq<Member>)
    returns (err: Option<Error>)
    requires lb.Valid() && Ready(lb.trace, lbID) && ActiveProtocol(lb.trace)
    requires all == MembersAt(lb.w, lbID) || (all == [] && !LiveAt(lb.w, lbID))
    requires DistinctMembers(all) && NoDup(d) && add == Except(d, Keys(all)) && Unmatched(all, d, obsolete)
    modifies lb`w, lb`trace, lb`faults
    ensures lb.Valid() && NodesOnly(old(lb.w), lb.w, lbID) && ActiveProtocol(lb.trace)
    ensures Adds(old(lb.trace), lb.trace, {Poll, NodeWrite})
    ensures err.None? || LiveAt(old(lb.w), lbID) ==>
              Accounted(err.None?, old(lb.faults), old(lb.trace), lb.faults, lb.trace)
    ensures LiveAt(old(lb.w), lbID) && Writes(Keys(MembersAt(old(lb.w), lbID)), d) == 0 ==>
              Adds(old(lb.trace), lb.trace, {Poll})
    ensures Partial(Keys(MembersAt(old(lb.w), lbID)), d, Keys(MembersAt(lb.w, lbID)))
    ensures err.None? ==>
              && Ready(lb.trace, lbID) && LiveAt(lb.w, lbID)
              && Keys(MembersAt(lb.w, lbID)) == FinalKeys(Keys(MembersAt(old(lb.w), lbID)), d)
              && NodeWrites(lb.trace, lbID) ==
                 NodeWrites(old(lb.trace), lbID) + Writes(Keys(MembersAt(old(lb.w), lbID)), d)
  {
    ghost var w0, t0 := lb.w, lb.trace;
    err := DeleteObsolete(lb, lbID, obsolete);
    ghost var w1, t1 := lb.w, lb.trace;
    Deleted(w0, w1, lbID, all, d, obsolete);
    if err.Some? {
      return err;
    }
    err := AddMissing(lb, lbID, Keys(all), d, add);
    AddsThen(t0, t1, lb.trace, {Poll, NodeWrite}, {Poll, NodeWrite}, {Poll, NodeWrite});
    if err.None? || LiveAt(w0, lbID) {
      AccountedLater(old(lb.faults), t0, t1, lb.faults, lb.trace, {Poll, NodeWrite}, err.None?);
    }
    NodesOnlyTransitive(w0, w1, lb.w, lbID);
  }

  /** The key sets after the deletions, complete or not. */
  lemma Deleted(w0: World, w1: World, id: nat, all: seq<Member>, d: seq<Key>, obsolete: seq<Member>)
    requires NodesOnly(w0, w1, id)
    requires all == MembersAt(w0, id) || (all == [] && !LiveAt(w0, id))
    requires DistinctMembers(all) && Unmatched(all, d, obsolete)
    requires ToSet(MembersAt(w0, id)) - ToSet(obsolete) <= ToSet(MembersAt(w1, id)) <= ToSet(MembersAt(w0, id))
    ensures |obsolete| == |Keys(all) - ToSet(d)|
    ensures LiveAt(w1, id) ==> all == MembersAt(w0, id)
    ensures Keys(MembersAt(w0, id)) * ToSet(d) <= Keys(MembersAt(w1, id)) <= Keys(MembersAt(w0, id))
    ensures (LiveAt(w1, id) && ToSet(MembersAt(w1, id)) == ToSet(MembersAt(w0, id)) - ToSet(obsolete))
            ==> Keys(MembersAt(w1, id)) == Keys(all) * ToSet(d)
  {
    if all == MembersAt(w0, id) {
      ObsoleteKeys(all, d, obsolete, MembersAt(w1, id));
    } else {
      KeysCard(obsolete);
      assert Keys(obsolete) == {};
      assert obsolete == [];
      assert ToSet(MembersAt(w1, id)) == ToSet(MembersAt(w0, id));
      SameKeys(MembersAt(w0, id), MembersAt(w1, id));
      assert Keys(all) == {};
    }
  }

  lemma SameKeys(a: seq<Member>, b: seq<Member>)
    requires ToSet(a) == ToSet(b)
    ensures Keys(a) == Keys(b)
  {
    assert forall m :: m in a <==> m in ToSet(a);
    assert forall m :: m in b <==> m in ToSet(b);
  }

  /** After the deletions: fetch again, add what still fits, wait. */
  method AddMissing(lb: Cloud, lbID: nat, ghost k: set<Key>, ghost d: seq<Key>, add: seq<Key>)
    returns (err: Option<Error>)
    requires lb.Valid() && Ready(lb.trace, lbID) && ActiveProtocol(lb.trace)
    requires NoDup(d) && add == Except(d, k)
    requires LiveAt(lb.w, lbID) ==> Keys(MembersAt(lb.w, lbID)) == k * ToSet(d)
    modifies lb`w, lb`trace, lb`faults
    ensures lb.Valid() && NodesOnly(old(lb.w), lb.w, lbID) && ActiveProtocol(lb.trace)
    ensures Adds(old(lb.trace), lb.trace, {Poll, NodeWrite})
    ensures err.None? || LiveAt(old(lb.w), lbID) ==>
              Accounted(err.None?, old(lb.faults), old(lb.trace), lb.faults, lb.trace)
    ensures LiveAt(old(lb.w), lbID) && Take(Except(d, k), Room(|k * ToSet(d)|)) == [] ==>
              Adds(old(lb.trace), lb.trace, {Poll})
    ensures Keys(MembersAt(lb.w, lbID)) == Keys(MembersAt(old(lb.w), lbID)) ||
            (LiveAt(old(lb.w), lbID) && Keys(MembersAt(lb.w, lbID)) == FinalKeys(k, d))
    ensures err.None? ==>
              && Ready(lb.trace, lbID) && LiveAt(lb.w, lbID) && LiveAt(old(lb.w), lbID)
              && Keys(MembersAt(lb.w, lbID)) == FinalKeys(k, d)
              && NodeWrites(lb.trace, lbID) == NodeWrites(old(lb.trace), lbID) +
                 if Take(Except(d, k), Room(|k * ToSet(d)|)) == [] then 0 else 1
  {
    hide Except, FinalKeys, DistinctMembers, Take, Room, Allowed, Keys, WaitedActive, Stuck;
    ghost var w0 := lb.w;
    var fetched := FetchMembers(lb, lbID);
    if fetched.Fail? {
      return Some(fetched.error);
    }
    var addNodes := Allowed(add, |fetched.value|);
    AllowedFits(w0, lbID, k, d, fetched.value);
    if |addNodes| > 0 {
      NewToAdd(w0, lbID, k, d, add, |fetched.value|, addNodes);
      var createErr := lb.CreateNodes(lbID, addNodes);
      if MembersAdded(w0, lb.w, lbID, addNodes) {
        AddedKeys(w0, lb.w, lbID, addNodes);
      }
      if createErr.Some? {
        return Some(ErrApi(createErr.value));
      }
    }
    ghost var w2, t := lb.w, lb.trace;
    err := WaitLoadbalancerActiveStatus(lb, lbID);
    PollsWriteNothing(t, lb.trace, lbID);
    AddsThen(old(lb.trace), t, lb.trace, {NodeWrite}, {Poll}, {Poll, NodeWrite});
    WaitAccounted(lb.faults, old(lb.trace), t, lb.trace, lbID, err, {NodeWrite});
    SettledMembers(w2, lb.w, lbID);
    NodesOnlyTransitive(w0, w2, lb.w, lbID);
  }

  /** What is added is not there yet. */
  lemma NewToAdd(w: World, id: nat, k: set<Key>, d: seq<Key>, add: seq<Key>, n: nat, keys: seq<Key>)
    requires NoDup(d) && add == Except(d, k) && keys == Allowed(add, n)
    requires LiveAt(w, id) ==> Keys(MembersAt(w, id)) == k * ToSet(d)
    ensures LiveAt(w, id) ==> NewKeys(w.lbs[id].members, keys)
  {
    ExceptElements(d, k);
    if LiveAt(w, id) {
      forall m | m in w.lbs[id].members ensures m.key !in keys {
        assert m.key in Keys(MembersAt(w, id));
      }
    }
  }

  /** What is added is exactly what the limit leaves room for. */
  lemma AllowedFits(w: World, id: nat, k: set<Key>, d: seq<Key>, fetched: seq<Member>)
    requires DistinctMembers(fetched)
    requires fetched == MembersAt(w, id) || (fetched == [] && !LiveAt(w, id))
    requires LiveAt(w, id) ==> Keys(MembersAt(w, id)) == k * ToSet(d)
    ensures LiveAt(w, id) ==> Allowed(Except(d, k), |fetched|) == Take(Except(d, k), Room(|k * ToSet(d)|))
    ensures LiveAt(w, id) ==> FinalKeys(k, d) == Keys(MembersAt(w, id)) + ToSet(Allowed(Except(d, k), |fetched|))
  {
    hide Except, DistinctMembers, ToSet;
    if LiveAt(w, id) {
      KeysCard(fetched);
    }
  }
}
