/** What the members of one load balancer become: the meaning of ensureLoadBalancerNodes. */
module Membership {
  import opened Basics
  import opened Sequences
  import opened Sorting
  import opened Resources

  /** The address of the first InternalIP, or none. */
  function NodeAddressForLB(node: Node): Result<string> {
    InternalAddress(node.addresses)
  }

  function InternalAddress(addrs: seq<NodeAddress>): Result<string> {
    if addrs == [] then Fail(ErrNoAddressFound)
    else if addrs[0].kind == InternalIP then Success(addrs[0].address)
    else InternalAddress(addrs[1..])
  }

  /** `a` is the address of the first entry of type InternalIP. */
  ghost predicate FirstInternal(addrs: seq<NodeAddress>, a: string) {
    exists i :: 0 <= i < |addrs| && addrs[i] == NodeAddress(InternalIP, a)
                && forall j :: 0 <= j < i ==> addrs[j].kind != InternalIP
  }

  lemma {:induction false} InternalAddressMeaning(addrs: seq<NodeAddress>, a: string)
    ensures InternalAddress(addrs) == Success(a) <==> FirstInternal(addrs, a)
  {
    if addrs != [] {
      var rest := addrs[1..];
      InternalAddressMeaning(rest, a);
      if addrs[0].kind != InternalIP && FirstInternal(rest, a) {
        var i :| 0 <= i < |rest| && rest[i] == NodeAddress(InternalIP, a)
                 && forall j :: 0 <= j < i ==> rest[j].kind != InternalIP;
        assert addrs[i + 1] == NodeAddress(InternalIP, a);
        assert forall j :: 0 < j < i + 1 ==> addrs[j] == rest[j - 1];
      }
      if addrs[0].kind != InternalIP && FirstInternal(addrs, a) {
        var i :| 0 <= i < |addrs| && addrs[i] == NodeAddress(InternalIP, a)
                 && forall j :: 0 <= j < i ==> addrs[j].kind != InternalIP;
        assert rest[i - 1] == NodeAddress(InternalIP, a);
      }
    }
  }

  predicate HasAddress(node: Node) {
    NodeAddressForLB(node).Success?
  }

  /** The caller skips a node on ErrNotFound, but a missing address is reported with another error. */
  lemma {:induction false} AddressErrorIsNeverNotFound(addrs: seq<NodeAddress>)
    ensures InternalAddress(addrs) != Fail(ErrNotFound)
    ensures InternalAddress(addrs) == Fail(ErrNoAddressFound) <==> forall a :: a in addrs ==> a.kind != InternalIP
  {
    if addrs != [] {
      AddressErrorIsNeverNotFound(addrs[1..]);
      assert addrs == [addrs[0]] + addrs[1..];
    }
  }

  function AddressOf(node: Node): string {
    match NodeAddressForLB(node)
    case Success(a) => a
    case Fail(_) => ""
  }

  function NodeName(node: Node): string {
    node.name
  }

  /** The order in which the nodes are considered: by name once there are more than the limit. */
  function NodeOrder(nodes: seq<Node>): seq<Node> {
    if |nodes| > MAX_NODE_LIMIT then Sort(nodes, NodeName) else nodes
  }

  function Wanted(nodes: seq<Node>, nodePort: int): seq<Key> {
    seq(|nodes|, i requires 0 <= i < |nodes| => Key(AddressOf(nodes[i]), nodePort))
  }

  /** The i-th key is the node port at the i-th node's first internal address. */
  lemma WantedMeaning(nodes: seq<Node>, nodePort: int)
    requires AllAddressed(nodes)
    ensures |Wanted(nodes, nodePort)| == |nodes|
    ensures forall i :: 0 <= i < |nodes| ==>
              Wanted(nodes, nodePort)[i].port == nodePort
              && FirstInternal(nodes[i].addresses, Wanted(nodes, nodePort)[i].address)
  {
    forall i | 0 <= i < |nodes| ensures FirstInternal(nodes[i].addresses, Wanted(nodes, nodePort)[i].address) {
      assert nodes[i] in nodes && HasAddress(nodes[i]);
      InternalAddressMeaning(nodes[i].addresses, AddressOf(nodes[i]));
    }
  }

  ghost predicate ProperNodes(nodes: seq<Node>) {
    && DistinctKeys(nodes, NodeName)
    && forall i, j :: 0 <= i < j < |nodes| && HasAddress(nodes[i]) && HasAddress(nodes[j])
                      ==> AddressOf(nodes[i]) != AddressOf(nodes[j])
  }

  predicate AllAddressed(nodes: seq<Node>) {
    forall n :: n in nodes ==> HasAddress(n)
  }

  function Room(members: nat): nat {
    Max(MAX_NODE_LIMIT - members, 0)
  }

  /** The members after a complete run that found `m` and wants `d`, in that order. */
  function FinalKeys(m: set<Key>, d: seq<Key>): set<Key> {
    var keep := m * ToSet(d);
    keep + ToSet(Take(Except(d, m), Room(|keep|)))
  }

  /** The members that an interrupted run can leave behind. */
  ghost predicate Partial(m: set<Key>, d: seq<Key>, m': set<Key>) {
    (m * ToSet(d) <= m' <= m) || m' == FinalKeys(m, d)
  }

  /** What an attempt with these nodes can leave behind. */
  ghost predicate NodesStep(m: set<Key>, m': set<Key>, nodes: seq<Node>, nodePort: int) {
    m' == m || (AllAddressed(nodes) && Partial(m, Wanted(nodes, nodePort), m'))
  }

  /** Nothing wanted is lost, nothing unwanted stays, and the size is fixed by the limit. */
  lemma FinalExact(m: set<Key>, d: seq<Key>)
    requires NoDup(d)
    ensures m * ToSet(d) <= FinalKeys(m, d) <= ToSet(d)
    ensures |FinalKeys(m, d)| == Max(|m * ToSet(d)|, Min(MAX_NODE_LIMIT, |d|))
  {
    var keep := m * ToSet(d);
    var missing := Except(d, m);
    ExceptElements(d, m);
    ExceptSet(d, m);
    CardToSet(d);
    CardToSet(missing);
    var added := ToSet(Take(missing, Room(|keep|)));
    TakeNoDup(missing, Room(|keep|));
    assert added <= ToSet(d) - m;
    assert ToSet(d) == keep + (ToSet(d) - m);
    assert |ToSet(d)| == |keep| + |ToSet(d) - m|;
    assert |keep + added| == |keep| + |added|;
  }

  /** Only which wanted members are present decides the outcome. */
  lemma FinalDependsOnKept(m: set<Key>, m': set<Key>, d: seq<Key>)
    requires m * ToSet(d) == m' * ToSet(d)
    ensures FinalKeys(m, d) == FinalKeys(m', d)
  {
    forall k | k in d ensures k in m <==> k in m' {
      assert k in ToSet(d);
      assert k in m <==> k in m * ToSet(d);
      assert k in m' <==> k in m' * ToSet(d);
    }
    ExceptAgrees(d, m, m');
  }

  /** When not all fit, those that come first are taken. */
  lemma FinalEarliest(m: set<Key>, d: seq<Key>, i: nat, j: nat)
    requires NoDup(d) && i < j < |d| && d[i] !in m && d[j] !in m && d[j] in FinalKeys(m, d)
    ensures d[i] in FinalKeys(m, d)
  {
    var missing, p := Except(d, m), |Except(d[..j], m)|;
    ExceptElements(d, m);
    ExceptElements(d[..j], m);
    ExceptPrefix(d, m, j);
    assert missing[p] == d[j];
    var taken := Take(missing, Room(|m * ToSet(d)|));
    assert d[j] in taken;
    var q :| 0 <= q < |taken| && taken[q] == missing[q] == d[j];
    assert q == p;
    assert d[..j][i] in Except(d[..j], m);
    var k :| 0 <= k < p && Except(d[..j], m)[k] == d[i];
    assert taken[k] == d[i];
  }

  /** A second run changes nothing. */
  lemma FinalIdempotent(m: set<Key>, d: seq<Key>)
    requires NoDup(d)
    ensures var f := FinalKeys(m, d);
            FinalKeys(f, d) == f && f - ToSet(d) == {} && Take(Except(d, f), Room(|f * ToSet(d)|)) == []
  {
    var f := FinalKeys(m, d);
    FinalExact(m, d);
    FinalExact(f, d);
    assert f * ToSet(d) == f;
    ExceptElements(d, f);
    var rest := Take(Except(d, f), Room(|f|));
    TakeNoDup(Except(d, f), Room(|f|));
    assert FinalKeys(f, d) == f + ToSet(rest);
    assert f !! ToSet(rest);
    assert |f + ToSet(rest)| == |f| + |ToSet(rest)|;
    CardToSet(rest);
  }

  /** Members at the node port of first internal addresses of these nodes, of all of them if they fit. */
  ghost predicate OfNodes(keys: set<Key>, nodes: seq<Node>, nodePort: int) {
    && (forall k :: k in keys ==> k.port == nodePort && exists n :: n in nodes && FirstInternal(n.addresses, k.address))
    && (|nodes| <= MAX_NODE_LIMIT ==>
          forall n, a :: n in nodes && FirstInternal(n.addresses, a) ==> Key(a, nodePort) in keys)
  }

  lemma FinalOfNodes(m: set<Key>, nodes: seq<Node>, nodePort: int)
    requires ProperNodes(nodes) && AllAddressed(NodeOrder(nodes))
    ensures OfNodes(FinalKeys(m, Wanted(NodeOrder(nodes), nodePort)), nodes, nodePort)
  {
    hide FinalKeys, ProperNodes, AllAddressed, NodeOrder, Wanted, OfNodes;
    var order := NodeOrder(nodes);
    var d := Wanted(order, nodePort);
    NodeOrderKeeps(nodes);
    PermutedNodes(nodes, order, nodePort);
    WantedNoDup(order, nodePort);
    FinalExact(m, d);
    if |nodes| <= MAX_NODE_LIMIT {
      WantedMeaning(order, nodePort);
      SmallExact(m, d);
    }
    KeysOfNodes(FinalKeys(m, d), nodes, order, nodePort);
  }

  lemma NodeOrderKeeps(nodes: seq<Node>)
    requires ProperNodes(nodes)
    ensures multiset(nodes) == multiset(NodeOrder(nodes))
    ensures forall n :: n in NodeOrder(nodes) <==> n in nodes
  {
    hide NodeOrder;
    NodeOrderPermutes(nodes);
    assert forall n :: n in NodeOrder(nodes) <==> n in multiset(NodeOrder(nodes));
    assert forall n :: n in nodes <==> n in multiset(nodes);
  }

  lemma KeysOfNodes(keys: set<Key>, nodes: seq<Node>, order: seq<Node>, nodePort: int)
    requires (forall n :: n in order <==> n in nodes) && AllAddressed(order) && keys <= ToSet(Wanted(order, nodePort))
    requires |nodes| <= MAX_NODE_LIMIT ==> keys == ToSet(Wanted(order, nodePort))
    ensures OfNodes(keys, nodes, nodePort)
  {
    hide FirstInternal, Wanted, AllAddressed;
    forall k | k in keys ensures k.port == nodePort && exists n :: n in nodes && FirstInternal(n.addresses, k.address) {
      var n := WantedFrom(order, nodePort, k);
    }
    if |nodes| <= MAX_NODE_LIMIT {
      forall n, a | n in nodes && FirstInternal(n.addresses, a) ensures Key(a, nodePort) in keys {
        WantedOf(order, nodePort, n, a);
      }
    }
  }

  lemma WantedFrom(nodes: seq<Node>, nodePort: int, k: Key) returns (n: Node)
    requires AllAddressed(nodes) && k in ToSet(Wanted(nodes, nodePort))
    ensures n in nodes && k.port == nodePort && FirstInternal(n.addresses, k.address)
  {
    hide FirstInternal;
    WantedMeaning(nodes, nodePort);
    var d := Wanted(nodes, nodePort);
    var i :| 0 <= i < |d| && d[i] == k;
    n := nodes[i];
  }

  lemma WantedOf(nodes: seq<Node>, nodePort: int, n: Node, a: string)
    requires n in nodes && FirstInternal(n.addresses, a)
    ensures Key(a, nodePort) in ToSet(Wanted(nodes, nodePort))
  {
    hide FirstInternal;
    InternalAddressMeaning(n.addresses, a);
    WantedSet(nodes, nodePort);
  }

  /** Interrupted anywhere and run again: the outcome of one uninterrupted run. */
  lemma InterruptionRecovers(m: set<Key>, d: seq<Key>, m': set<Key>)
    requires NoDup(d) && Partial(m, d, m')
    ensures FinalKeys(m', d) == FinalKeys(m, d)
  {
    if m' == FinalKeys(m, d) {
      FinalIdempotent(m, d);
    } else {
      assert m * ToSet(d) == m' * ToSet(d);
      FinalDependsOnKept(m, m', d);
    }
  }

  /** Any number of interrupted runs: still the outcome of one complete run, and no wanted member was ever missing. */
  lemma {:induction false} InterruptionsRecover(states: seq<set<Key>>, d: seq<Key>, n: nat)
    requires NoDup(d) && n < |states|
    requires forall i :: 0 < i < |states| ==> Partial(states[i - 1], d, states[i])
    ensures FinalKeys(states[n], d) == FinalKeys(states[0], d)
    ensures states[0] * ToSet(d) <= states[n]
  {
    if n > 0 {
      InterruptionsRecover(states, d, n - 1);
      assert Partial(states[n - 1], d, states[n]);
      InterruptionRecovers(states[n - 1], d, states[n]);
      FinalExact(states[n - 1], d);
      assert states[0] * ToSet(d) <= states[n - 1] * ToSet(d);
    }
  }

  /** Up to the limit the outcome is exactly what is wanted. */
  lemma SmallExact(m: set<Key>, d: seq<Key>)
    requires NoDup(d) && |d| <= MAX_NODE_LIMIT
    ensures FinalKeys(m, d) == ToSet(d)
  {
    FinalExact(m, d);
    CardToSet(d);
    SubsetCard(FinalKeys(m, d), ToSet(d));
    SubsetCard(m * ToSet(d), ToSet(d));
  }

  /** An empty load balancer gets the first nodes in order. */
  lemma FromEmpty(d: seq<Key>)
    requires NoDup(d)
    ensures FinalKeys({}, d) == ToSet(Take(d, MAX_NODE_LIMIT))
  {
    assert {} * ToSet(d) == {};
    ExceptNothing(d);
  }

  lemma {:induction false} ExceptNothing<T>(s: seq<T>)
    ensures Except(s, {}) == s
  {
    if s != [] {
      ExceptNothing(s[..|s| - 1]);
    }
  }

  lemma WantedNoDup(nodes: seq<Node>, nodePort: int)
    requires ProperNodes(nodes) && AllAddressed(nodes)
    ensures NoDup(Wanted(nodes, nodePort))
  {
  }

  /** Properness, addresses and the wanted set survive reordering. */
  lemma PermutedNodes(a: seq<Node>, b: seq<Node>, nodePort: int)
    requires multiset(a) == multiset(b) && ProperNodes(a)
    ensures ProperNodes(b) && |a| == |b|
    ensures AllAddressed(a) <==> AllAddressed(b)
    ensures ToSet(Wanted(a, nodePort)) == ToSet(Wanted(b, nodePort))
  {
    assert NoDup(a);
    MultisetNoDup(a, b);
    DistinctKeysPermute(a, b, NodeName);
    assert forall n :: n in a <==> n in ToSet(a);
    assert forall n :: n in b <==> n in ToSet(b);
    forall i, j | 0 <= i < j < |b| && HasAddress(b[i]) && HasAddress(b[j])
      ensures AddressOf(b[i]) != AddressOf(b[j])
    {
      assert b[i] in a && b[j] in a && b[i] != b[j];
    }
    WantedSet(a, nodePort);
    WantedSet(b, nodePort);
  }

  lemma WantedSet(nodes: seq<Node>, nodePort: int)
    ensures forall k :: k in ToSet(Wanted(nodes, nodePort)) <==>
                          exists n :: n in nodes && k == Key(AddressOf(n), nodePort)
  {
    var d := Wanted(nodes, nodePort);
    forall n | n in nodes ensures Key(AddressOf(n), nodePort) in d {
      var i :| 0 <= i < |nodes| && nodes[i] == n;
      assert d[i] == Key(AddressOf(n), nodePort);
    }
    forall k | k in d ensures exists n :: n in nodes && k == Key(AddressOf(n), nodePort) {
      var i :| 0 <= i < |d| && d[i] == k;
      assert nodes[i] in nodes;
    }
  }

  /** The order of the node list never matters: any permutation gives the same members. */
  lemma SelectionOrderIndependent(a: seq<Node>, b: seq<Node>, nodePort: int, m: set<Key>)
    requires multiset(a) == multiset(b) && ProperNodes(a) && AllAddressed(a)
    ensures FinalKeys(m, Wanted(NodeOrder(a), nodePort)) == FinalKeys(m, Wanted(NodeOrder(b), nodePort))
  {
    PermutedNodes(a, b, nodePort);
    if |a| > MAX_NODE_LIMIT {
      SortSorts(b, NodeName);
      SortCanonical(a, Sort(b, NodeName), NodeName);
    } else {
      WantedNoDup(a, nodePort);
      WantedNoDup(b, nodePort);
      SmallExact(m, Wanted(a, nodePort));
      SmallExact(m, Wanted(b, nodePort));
    }
  }

  lemma NodeOrderPermutes(nodes: seq<Node>)
    requires DistinctKeys(nodes, NodeName)
    ensures multiset(NodeOrder(nodes)) == multiset(nodes)
    ensures NodeOrder(NodeOrder(nodes)) == NodeOrder(nodes)
    ensures if |nodes| <= 25 then NodeOrder(nodes) == nodes else SortedBy(NodeOrder(nodes), NodeName)
  {
    if |nodes| > MAX_NODE_LIMIT {
      var sorted := Sort(nodes, NodeName);
      SortSorts(nodes, NodeName);
      assert |sorted| == |multiset(sorted)| == |multiset(nodes)| == |nodes|;
      DistinctKeysPermute(nodes, sorted, NodeName);
      SortCanonical(sorted, sorted, NodeName);
    }
  }
}
