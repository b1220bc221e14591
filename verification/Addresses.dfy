/** The addresses of a server, and the one that serves as a next hop. */
module Addresses {
  import opened Basics
  import opened Sequences
  import opened Text
  import opened Sorting
  import opened Resources

  const TYPE_HOST_NAME := "hostname"

  /** `addresses` is None when the API's data cannot be decoded. */
  datatype Server = Server(
    id: string, name: string, accessIPv4: string, accessIPv6: string,
    metadata: map<string, string>, addresses: Option<map<string, seq<string>>>)

  /** `isIPv6` stands for net.ParseIP(a).To4() == nil. */
  datatype NetworkingOpts = NetworkingOpts(
    ipv6SupportDisabled: bool, publicNetworkName: string, internalNetworkName: string, isIPv6: string -> bool)

  function Self(s: string): string { s }

  /** The keys of a map in ascending order. */
  ghost predicate Enumerates(networks: seq<string>, keys: set<string>) {
    NoDup(networks) && ToSet(networks) == keys && SortedBy(networks, Self)
  }

  lemma EnumerationUnique(a: seq<string>, b: seq<string>, keys: set<string>)
    requires Enumerates(a, keys) && Enumerates(b, keys)
    ensures a == b
  {
    NoDupMultiset(a);
    NoDupMultiset(b);
    assert forall x :: x in a <==> x in ToSet(a);
    assert forall x :: x in b <==> x in ToSet(b);
    SortedUnique(a, b, Self);
  }

  lemma SortEnumerates(s: seq<string>)
    requires NoDup(s)
    ensures Enumerates(Sort(s, Self), ToSet(s))
  {
    SortSorts(s, Self);
    MultisetNoDup(s, Sort(s, Self));
  }

  lemma EnumerationExists(keys: set<string>)
    ensures exists networks :: Enumerates(networks, keys)
  {
    var s: seq<string>, rest := [], keys;
    while rest != {}
      invariant rest <= keys && NoDup(s) && ToSet(s) == keys - rest
      decreases rest
    {
      var k :| k in rest;
      assert k !in ToSet(s) && ToSet(s + [k]) == ToSet(s) + {k};
      s, rest := s + [k], rest - {k};
    }
    SortEnumerates(s);
    assert Enumerates(Sort(s, Self), keys);
  }

  ghost function Networks(keys: set<string>): (networks: seq<string>)
    ensures Enumerates(networks, keys)
  {
    EnumerationExists(keys);
    var networks :| Enumerates(networks, keys);
    networks
  }

  function Published(network: string, addr: string, opts: NetworkingOpts): seq<NodeAddress> {
    if network != opts.publicNetworkName && network != opts.internalNetworkName then []
    else if opts.isIPv6(addr) && opts.ipv6SupportDisabled then []
    else [NodeAddress(if network == opts.publicNetworkName then ExternalIP else InternalIP, addr)]
  }

  function PublishedAll(network: string, addrs: seq<string>, opts: NetworkingOpts): seq<NodeAddress> {
    if addrs == [] then []
    else PublishedAll(network, addrs[..|addrs| - 1], opts) + Published(network, addrs[|addrs| - 1], opts)
  }

  function FromNetworks(networks: seq<string>, addresses: map<string, seq<string>>,
                        opts: NetworkingOpts): seq<NodeAddress>
    requires forall n :: n in networks ==> n in addresses
  {
    if networks == [] then []
    else
      var last := networks[|networks| - 1];
      FromNetworks(networks[..|networks| - 1], addresses, opts) + PublishedAll(last, addresses[last], opts)
  }

  function Fixed(srv: Server, opts: NetworkingOpts): seq<NodeAddress> {
    (if srv.accessIPv4 != "" then [NodeAddress(ExternalIP, srv.accessIPv4)] else [])
    + (if srv.accessIPv6 != "" && !opts.ipv6SupportDisabled then [NodeAddress(ExternalIP, srv.accessIPv6)] else [])
    + (if TYPE_HOST_NAME in srv.metadata && srv.metadata[TYPE_HOST_NAME] != ""
       then [NodeAddress(HostName, srv.metadata[TYPE_HOST_NAME])] else [])
  }

  /** Every address that is considered, in order, repeats included. */
  ghost function Candidates(srv: Server, opts: NetworkingOpts): seq<NodeAddress>
    requires srv.addresses.Some?
  {
    Fixed(srv, opts) + FromNetworks(Networks(srv.addresses.value.Keys), srv.addresses.value, opts)
  }

  /** The first occurrence of every element, in order. */
  function Dedup(s: seq<NodeAddress>): seq<NodeAddress> {
    if s == [] then []
    else
      var front := Dedup(s[..|s| - 1]);
      if s[|s| - 1] in front then front else front + [s[|s| - 1]]
  }

  lemma {:induction false} DedupMeaning(s: seq<NodeAddress>)
    ensures NoDup(Dedup(s))
    ensures forall x :: x in Dedup(s) <==> x in s
  {
    if s != [] {
      DedupMeaning(s[..|s| - 1]);
      assert s == s[..|s| - 1] + [s[|s| - 1]];
    }
  }

  /** Each element of the result is there because of a first occurrence, and these occur in the same order. */
  ghost predicate FirstOccurrences(s: seq<NodeAddress>, r: seq<NodeAddress>, at: seq<nat>) {
    && |at| == |r|
    && (forall i :: 0 <= i < |r| ==> at[i] < |s| && s[at[i]] == r[i] && r[i] !in s[..at[i]])
    && (forall i, j :: 0 <= i < j < |r| ==> at[i] < at[j])
  }

  lemma {:induction false} DedupOrder(s: seq<NodeAddress>) returns (at: seq<nat>)
    ensures FirstOccurrences(s, Dedup(s), at)
  {
    at := [];
    if s != [] {
      var n := |s| - 1;
      at := DedupOrder(s[..n]);
      DedupMeaning(s[..n]);
      assert forall i :: 0 <= i < |at| ==> s[..n][..at[i]] == s[..at[i]];
      if s[n] !in Dedup(s[..n]) {
        at := at + [n];
      }
    }
  }

  lemma DedupNext(s: seq<NodeAddress>, x: NodeAddress)
    ensures Dedup(s + [x]) == if x in s then Dedup(s) else Dedup(s) + [x]
  {
    DedupMeaning(s);
    assert (s + [x])[..|s|] == s;
  }

  /** A list of addresses that is passed by reference. */
  class AddressList {
    var addrs: seq<NodeAddress>

    constructor ()
      ensures addrs == []
    {
      addrs := [];
    }

    method Has(address: NodeAddress) returns (present: bool)
      ensures present <==> address in addrs
    {
      for i := 0 to |addrs|
        invariant address !in addrs[..i]
      {
        if addrs[i].address == address.address && addrs[i].kind == address.kind {
          return true;
        }
      }
      return false;
    }

    /** Appends what is not there yet; `sofar` is what has been offered before. */
    method AddToNodeAddresses(addAddresses: seq<NodeAddress>, ghost sofar: seq<NodeAddress>)
      requires addrs == Dedup(sofar)
      modifies this
      ensures addrs == Dedup(sofar + addAddresses)
    {
      assert sofar + addAddresses[..0] == sofar;
      for i := 0 to |addAddresses|
        invariant addrs == Dedup(sofar + addAddresses[..i])
      {
        DedupMeaning(sofar + addAddresses[..i]);
        DedupNext(sofar + addAddresses[..i], addAddresses[i]);
        assert sofar + addAddresses[..i + 1] == sofar + addAddresses[..i] + [addAddresses[i]];
        var present := Has(addAddresses[i]);
        if !present {
          addrs := addrs + [addAddresses[i]];
        }
      }
      assert addAddresses[..|addAddresses|] == addAddresses;
    }
  }

  /** What nodeAddresses returns: no trace is left of the order in which a map is traversed. */
  ghost function NodeAddressesOf(srv: Server, opts: NetworkingOpts): Result<seq<NodeAddress>> {
    if srv.addresses.None? then Fail(ErrInvalid) else Success(Dedup(Candidates(srv, opts)))
  }

  /** Not an IPv6 address while IPv6 is switched off. */
  predicate Enabled(x: string, opts: NetworkingOpts) {
    !(opts.isIPv6(x) && opts.ipv6SupportDisabled)
  }

  predicate ListedUnder(srv: Server, network: string, x: string) {
    srv.addresses.Some? && network in srv.addresses.value && x in srv.addresses.value[network]
  }

  /** What a server says about itself: an address of this type, or a name. */
  predicate Reports(srv: Server, opts: NetworkingOpts, kind: AddressType, x: string) {
    match kind
    case InternalIP =>
      opts.internalNetworkName != opts.publicNetworkName
      && ListedUnder(srv, opts.internalNetworkName, x) && Enabled(x, opts)
    case ExternalIP =>
      || (x != "" && x == srv.accessIPv4)
      || (x != "" && x == srv.accessIPv6 && !opts.ipv6SupportDisabled)
      || (ListedUnder(srv, opts.publicNetworkName, x) && Enabled(x, opts))
    case HostName =>
      x != "" && TYPE_HOST_NAME in srv.metadata && srv.metadata[TYPE_HOST_NAME] == x
  }

  /** `x` is listed under the network before any `y` is. */
  ghost predicate ListedBefore(srv: Server, network: string, x: string, y: string) {
    srv.addresses.Some? && network in srv.addresses.value &&
    var all := srv.addresses.value[network];
    exists p :: 0 <= p < |all| && all[p] == x && y !in all[..p + 1]
  }

  /** Positions `i < j` of the networks' part are in order: by network name, within a network as listed. */
  ghost predicate InListedOrder(x: NodeAddress, y: NodeAddress, srv: Server, opts: NetworkingOpts) {
    if x.kind == y.kind then
      var network := if x.kind == ExternalIP then opts.publicNetworkName else opts.internalNetworkName;
      ListedBefore(srv, network, x.address, y.address)
    else if x.kind == InternalIP then Less(opts.internalNetworkName, opts.publicNetworkName)
    else Less(opts.publicNetworkName, opts.internalNetworkName)
  }

  /** First the access addresses, IPv4 before IPv6, then the host name, then the networks. */
  ghost predicate Arranged(list: seq<NodeAddress>, srv: Server, opts: NetworkingOpts, m: nat, n: nat) {
    && m <= n <= |list|
    && (forall i :: 0 <= i < m ==>
          list[i] == NodeAddress(ExternalIP, if i == 0 && srv.accessIPv4 != "" then srv.accessIPv4 else srv.accessIPv6))
    && (forall i :: m <= i < n ==> list[i].kind == HostName)
    && (forall i :: n <= i < |list| ==> list[i].kind != HostName)
    && (forall i, j :: n <= i < j < |list| ==> InListedOrder(list[i], list[j], srv, opts))
  }

  lemma {:induction false} PublishedAllElements(network: string, addrs: seq<string>, opts: NetworkingOpts,
                                                y: NodeAddress)
    ensures y in PublishedAll(network, addrs, opts) <==>
              && y.address in addrs && Enabled(y.address, opts)
              && (if network == opts.publicNetworkName then y.kind == ExternalIP
                  else network == opts.internalNetworkName && y.kind == InternalIP)
  {
    if addrs != [] {
      PublishedAllElements(network, addrs[..|addrs| - 1], opts, y);
      assert addrs == addrs[..|addrs| - 1] + [addrs[|addrs| - 1]];
    }
  }

  lemma {:induction false} NothingPublished(network: string, addrs: seq<string>, opts: NetworkingOpts)
    requires network != opts.publicNetworkName && network != opts.internalNetworkName
    ensures PublishedAll(network, addrs, opts) == []
  {
    if addrs != [] {
      NothingPublished(network, addrs[..|addrs| - 1], opts);
    }
  }

  function Segment(networks: seq<string>, network: string, addresses: map<string, seq<string>>,
                   opts: NetworkingOpts): seq<NodeAddress>
    requires forall n :: n in networks ==> n in addresses
  {
    if network in networks then PublishedAll(network, addresses[network], opts) else []
  }

  /** Of all networks only the two configured ones count, the smaller name first. */
  lemma {:induction false} TwoNetworks(networks: seq<string>, addresses: map<string, seq<string>>, opts: NetworkingOpts,
                                       a: string, b: string)
    requires NoDup(networks) && SortedBy(networks, Self) && forall n :: n in networks ==> n in addresses
    requires Less(a, b) && {opts.publicNetworkName, opts.internalNetworkName} <= {a, b}
    ensures FromNetworks(networks, addresses, opts) ==
            Segment(networks, a, addresses, opts) + Segment(networks, b, addresses, opts)
  {
    hide PublishedAll, Less, Segment;
    LessEqRefl(a);
    if networks == [] {
      SegmentNone(networks, a, addresses, opts);
      SegmentNone(networks, b, addresses, opts);
    } else {
      var front, last := networks[..|networks| - 1], networks[|networks| - 1];
      TwoNetworks(front, addresses, opts, a, b);
      SegmentNext(networks, a, addresses, opts);
      SegmentNext(networks, b, addresses, opts);
      if last == a {
        forall i | 0 <= i < |front| ensures front[i] != b {
          assert LessEq(Self(networks[i]), Self(networks[|front|]));
        }
        SegmentNone(front, b, addresses, opts);
        var here := PublishedAll(a, addresses[a], opts);
        assert [] + [] + here == here + [];
      } else if last != b {
        assert last !in {opts.publicNetworkName, opts.internalNetworkName};
        NothingPublished(last, addresses[last], opts);
      } else {
        var before := Segment(front, a, addresses, opts);
        assert before + [] == before;
      }
    }
  }

  lemma SegmentNone(networks: seq<string>, network: string, addresses: map<string, seq<string>>, opts: NetworkingOpts)
    requires (forall n :: n in networks ==> n in addresses) && network !in networks
    ensures Segment(networks, network, addresses, opts) == []
  {
  }

  lemma SegmentNext(networks: seq<string>, network: string, addresses: map<string, seq<string>>, opts: NetworkingOpts)
    requires NoDup(networks) && networks != [] && forall n :: n in networks ==> n in addresses
    ensures var front, last := networks[..|networks| - 1], networks[|networks| - 1];
            && (network == last ==> Segment(front, network, addresses, opts) == [])
            && Segment(networks, network, addresses, opts) ==
               if network == last then PublishedAll(last, addresses[last], opts)
               else Segment(front, network, addresses, opts)
  {
    assert networks == networks[..|networks| - 1] + [networks[|networks| - 1]];
  }

  lemma {:induction false} OneNetwork(networks: seq<string>, addresses: map<string, seq<string>>, opts: NetworkingOpts)
    requires NoDup(networks) && forall n :: n in networks ==> n in addresses
    requires opts.publicNetworkName == opts.internalNetworkName
    ensures FromNetworks(networks, addresses, opts) == Segment(networks, opts.publicNetworkName, addresses, opts)
  {
    hide PublishedAll;
    if networks != [] {
      var k := |networks| - 1;
      var front, last := networks[..k], networks[k];
      OneNetwork(front, addresses, opts);
      assert networks == front + [last];
      if last != opts.publicNetworkName {
        NothingPublished(last, addresses[last], opts);
      }
    }
  }

  /** The two segments in the order of their names. */
  lemma NetworkSegments(srv: Server, opts: NetworkingOpts) returns (first: string, second: string)
    requires srv.addresses.Some?
    ensures var addresses := srv.addresses.value;
            var networks := Networks(addresses.Keys);
            && {first, second} == {opts.publicNetworkName, opts.internalNetworkName}
            && (first == second || Less(first, second))
            && (forall n :: n in networks <==> n in addresses)
            && FromNetworks(networks, addresses, opts) ==
               Segment(networks, first, addresses, opts)
               + if first == second then [] else Segment(networks, second, addresses, opts)
  {
    hide FromNetworks, Segment, Less;
    var addresses := srv.addresses.value;
    var networks := Networks(addresses.Keys);
    assert forall n :: n in networks <==> n in ToSet(networks);
    first, second := opts.publicNetworkName, opts.internalNetworkName;
    if first == second {
      OneNetwork(networks, addresses, opts);
    } else {
      if !Less(first, second) {
        if !Less(second, first) {
          LessAntisymmetric(first, second);
        }
        first, second := second, first;
      }
      TwoNetworks(networks, addresses, opts, first, second);
    }
  }

  /** What is published up to a position comes from a prefix of the addresses that ends with it. */
  lemma {:induction false} PublishedPosition(network: string, addrs: seq<string>, opts: NetworkingOpts, u: nat)
    returns (p: nat)
    requires u < |PublishedAll(network, addrs, opts)|
    ensures p < |addrs| && addrs[p] == PublishedAll(network, addrs, opts)[u].address
    ensures PublishedAll(network, addrs[..p + 1], opts) == PublishedAll(network, addrs, opts)[..u + 1]
  {
    var k := |addrs| - 1;
    var before, here := PublishedAll(network, addrs[..k], opts), Published(network, addrs[k], opts);
    assert PublishedAll(network, addrs, opts) == before + here && |here| <= 1;
    if u < |before| {
      p := PublishedPosition(network, addrs[..k], opts, u);
      assert addrs[..k][..p + 1] == addrs[..p + 1];
    } else {
      p := k;
      assert addrs[..k + 1] == addrs;
    }
  }

  lemma SegmentOrder(network: string, addrs: seq<string>, opts: NetworkingOpts, u: nat, v: nat)
    requires u < v < |PublishedAll(network, addrs, opts)|
    requires PublishedAll(network, addrs, opts)[v] !in PublishedAll(network, addrs, opts)[..v]
    ensures var x, y := PublishedAll(network, addrs, opts)[u], PublishedAll(network, addrs, opts)[v];
            x.kind == y.kind && exists p :: 0 <= p < |addrs| && addrs[p] == x.address && y.address !in addrs[..p + 1]
  {
    hide PublishedAll;
    var all := PublishedAll(network, addrs, opts);
    var p := PublishedPosition(network, addrs, opts, u);
    PublishedAllElements(network, addrs, opts, all[u]);
    PublishedAllElements(network, addrs, opts, all[v]);
    PublishedAllElements(network, addrs[..p + 1], opts, all[v]);
    assert all[v] !in all[..u + 1] by {
      assert forall k :: 0 <= k < u + 1 ==> all[..u + 1][k] == all[..v][k];
    }
  }

  lemma {:induction false} Threshold(at: seq<nat>, limit: nat) returns (m: nat)
    requires forall i, j :: 0 <= i < j < |at| ==> at[i] < at[j]
    ensures m <= |at| && (forall i :: 0 <= i < m ==> at[i] < limit) && forall i :: m <= i < |at| ==> limit <= at[i]
  {
    if at == [] {
      m := 0;
    } else if at[|at| - 1] < limit {
      m := |at|;
    } else {
      m := Threshold(at[..|at| - 1], limit);
    }
  }

  /** The type of what is published tells the network. */
  lemma SegmentKind(networks: seq<string>, network: string, addresses: map<string, seq<string>>, opts: NetworkingOpts,
                    u: nat)
    requires (forall n :: n in networks ==> n in addresses) && u < |Segment(networks, network, addresses, opts)|
    ensures network in networks
    ensures var x := Segment(networks, network, addresses, opts)[u];
            if network == opts.publicNetworkName then x.kind == ExternalIP
            else network == opts.internalNetworkName && x.kind == InternalIP
  {
    hide PublishedAll;
    PublishedAllElements(network, addresses[network], opts, Segment(networks, network, addresses, opts)[u]);
  }

  /** First occurrences in the networks' part are in order. */
  lemma NetworksOrder(srv: Server, opts: NetworkingOpts, nets: seq<NodeAddress>, u: nat, v: nat)
    requires srv.addresses.Some?
    requires nets == FromNetworks(Networks(srv.addresses.value.Keys), srv.addresses.value, opts)
    requires u < v < |nets| && nets[v] !in nets[..v]
    ensures InListedOrder(nets[u], nets[v], srv, opts)
  {
    hide PublishedAll, FromNetworks, Segment, Less;
    var addresses := srv.addresses.value;
    var networks := Networks(addresses.Keys);
    var first, second := NetworkSegments(srv, opts);
    var front := Segment(networks, first, addresses, opts);
    var back := if first == second then [] else Segment(networks, second, addresses, opts);
    var k := |front|;
    assert forall i :: 0 <= i < k ==> nets[i] == front[i];
    assert forall i :: k <= i < |nets| ==> nets[i] == back[i - k];
    if v < k {
      SegmentKind(networks, first, addresses, opts, u);
      assert front[v] !in front[..v] by { assert front[..v] == nets[..v]; }
      InSegment(networks, first, addresses, opts, u, v);
    } else if k <= u {
      SegmentKind(networks, second, addresses, opts, u - k);
      assert back[v - k] !in back[..v - k] by {
        assert back[..v - k] == nets[k..v] && nets[..v] == nets[..k] + nets[k..v];
      }
      InSegment(networks, second, addresses, opts, u - k, v - k);
    } else {
      SegmentKind(networks, first, addresses, opts, u);
      SegmentKind(networks, second, addresses, opts, v - k);
    }
  }

  lemma InSegment(networks: seq<string>, network: string, addresses: map<string, seq<string>>, opts: NetworkingOpts,
                  u: nat, v: nat)
    requires (forall n :: n in networks ==> n in addresses) && network in networks
    requires u < v < |Segment(networks, network, addresses, opts)|
    requires Segment(networks, network, addresses, opts)[v] !in Segment(networks, network, addresses, opts)[..v]
    ensures var x, y := Segment(networks, network, addresses, opts)[u], Segment(networks, network, addresses, opts)[v];
            var all := addresses[network];
            x.kind == y.kind && exists p :: 0 <= p < |all| && all[p] == x.address && y.address !in all[..p + 1]
  {
    hide PublishedAll;
    SegmentOrder(network, addresses[network], opts, u, v);
  }

  /** The de-duplicated candidates keep the order of the three parts and that of the networks. */
  lemma Arrangement(srv: Server, opts: NetworkingOpts) returns (m: nat, n: nat)
    requires srv.addresses.Some?
    ensures Arranged(Dedup(Candidates(srv, opts)), srv, opts, m, n)
  {
    hide Dedup, Candidates, InListedOrder;
    var at := DedupOrder(Candidates(srv, opts));
    m := Threshold(at, AccessCount(srv, opts));
    n := Threshold(at, |Fixed(srv, opts)|);
    FixedArranged(srv, opts, at, m, n);
    NetworksArranged(srv, opts, at, n);
  }

  /** How many access addresses are offered. */
  function AccessCount(srv: Server, opts: NetworkingOpts): (k: nat)
    ensures k <= |Fixed(srv, opts)|
  {
    (if srv.accessIPv4 != "" then 1 else 0) + if srv.accessIPv6 != "" && !opts.ipv6SupportDisabled then 1 else 0
  }

  lemma FixedArranged(srv: Server, opts: NetworkingOpts, at: seq<nat>, m: nat, n: nat)
    requires srv.addresses.Some? && FirstOccurrences(Candidates(srv, opts), Dedup(Candidates(srv, opts)), at)
    requires m <= |at| && (forall i :: 0 <= i < m ==> at[i] < AccessCount(srv, opts))
    requires forall i :: m <= i < |at| ==> AccessCount(srv, opts) <= at[i]
    requires n <= |at| && (forall i :: 0 <= i < n ==> at[i] < |Fixed(srv, opts)|)
    requires forall i :: n <= i < |at| ==> |Fixed(srv, opts)| <= at[i]
    ensures var list := Dedup(Candidates(srv, opts));
            && m <= n <= |list|
            && (forall i :: 0 <= i < m ==>
                  list[i] ==
                  NodeAddress(ExternalIP, if i == 0 && srv.accessIPv4 != "" then srv.accessIPv4 else srv.accessIPv6))
            && forall i :: m <= i < n ==> list[i].kind == HostName
  {
    hide Dedup, FromNetworks;
    var fixed, all := Fixed(srv, opts), Candidates(srv, opts);
    assert forall i :: 0 <= i < |fixed| ==> all[i] == fixed[i];
    assert n < |at| ==> |fixed| <= at[n];
    FirstStays(all, Dedup(all), at);
    forall i | 0 <= i < m
      ensures Dedup(all)[i] ==
              NodeAddress(ExternalIP, if i == 0 && srv.accessIPv4 != "" then srv.accessIPv4 else srv.accessIPv6)
    {
      assert i > 0 ==> at[0] < at[i];
      assert Dedup(all)[i] == fixed[at[i]];
    }
    forall i | m <= i < n ensures Dedup(all)[i].kind == HostName {
      assert Dedup(all)[i] == fixed[at[i]];
    }
  }

  lemma NetworksArranged(srv: Server, opts: NetworkingOpts, at: seq<nat>, n: nat)
    requires srv.addresses.Some? && FirstOccurrences(Candidates(srv, opts), Dedup(Candidates(srv, opts)), at)
    requires n <= |at| && forall i :: n <= i < |at| ==> |Fixed(srv, opts)| <= at[i]
    ensures var list := Dedup(Candidates(srv, opts));
            && (forall i :: n <= i < |list| ==> list[i].kind != HostName)
            && forall i, j :: n <= i < j < |list| ==> InListedOrder(list[i], list[j], srv, opts)
  {
    hide Dedup, Fixed, FromNetworks, InListedOrder;
    var fixed, all := Fixed(srv, opts), Candidates(srv, opts);
    var nets := FromNetworks(Networks(srv.addresses.value.Keys), srv.addresses.value, opts);
    var list := Dedup(all);
    forall i | n <= i < |list| ensures list[i].kind != HostName && list[i] == nets[at[i] - |fixed|] {
      NetworksKind(srv, opts, nets, at[i] - |fixed|);
    }
    forall i, j | n <= i < j < |list| ensures InListedOrder(list[i], list[j], srv, opts) {
      var u, v := at[i] - |fixed|, at[j] - |fixed|;
      assert nets[v] !in nets[..v] by {
        assert all[..at[j]] == fixed + nets[..v];
      }
      NetworksOrder(srv, opts, nets, u, v);
    }
  }

  lemma NetworksKind(srv: Server, opts: NetworkingOpts, nets: seq<NodeAddress>, u: nat)
    requires srv.addresses.Some? && u < |nets|
    requires nets == FromNetworks(Networks(srv.addresses.value.Keys), srv.addresses.value, opts)
    ensures nets[u].kind != HostName
  {
    hide PublishedAll, FromNetworks, Segment, Less;
    var addresses := srv.addresses.value;
    var networks := Networks(addresses.Keys);
    var first, second := NetworkSegments(srv, opts);
    var k := |Segment(networks, first, addresses, opts)|;
    if u < k {
      SegmentKind(networks, first, addresses, opts, u);
    } else {
      SegmentKind(networks, second, addresses, opts, u - k);
    }
  }

  lemma FirstStays(s: seq<NodeAddress>, r: seq<NodeAddress>, at: seq<nat>)
    requires r == Dedup(s) && FirstOccurrences(s, r, at)
    ensures r != [] ==> at[0] == 0
  {
    hide Dedup;
    DedupMeaning(s);
    if r != [] {
      assert at[0] < |s|;
      assert s[0] in r;
      var k :| 0 <= k < |r| && r[k] == s[0];
      assert forall j :: 0 < j <= |s| ==> s[..j][0] == s[0];
    }
  }

  /** By membership: exactly what the server reports. */
  lemma CandidatesMeaning(srv: Server, opts: NetworkingOpts, y: NodeAddress)
    requires srv.addresses.Some?
    ensures y in Candidates(srv, opts) <==> Reports(srv, opts, y.kind, y.address)
  {
    hide PublishedAll, FromNetworks;
    var addresses := srv.addresses.value;
    var first, second := NetworkSegments(srv, opts);
    forall n | n in addresses {
      PublishedAllElements(n, addresses[n], opts, y);
    }
    assert y in Fixed(srv, opts) <==>
           || (y.kind == ExternalIP && y.address != "" && y.address == srv.accessIPv4)
           || (y.kind == ExternalIP && y.address != "" && y.address == srv.accessIPv6 && !opts.ipv6SupportDisabled)
           || (y.kind == HostName && Reports(srv, opts, HostName, y.address));
  }

  lemma AddressesMeaning(srv: Server, opts: NetworkingOpts)
    requires srv.addresses.Some?
    ensures var list := Dedup(Candidates(srv, opts));
            && NoDup(list) && (forall x :: x in list <==> Reports(srv, opts, x.kind, x.address))
            && exists m, n :: Arranged(list, srv, opts, m, n)
  {
    hide Candidates, Dedup, Reports, Arranged;
    DedupMeaning(Candidates(srv, opts));
    forall x: NodeAddress ensures x in Dedup(Candidates(srv, opts)) <==> Reports(srv, opts, x.kind, x.address) {
      CandidatesMeaning(srv, opts, x);
    }
    var m, n := Arrangement(srv, opts);
  }

  /** A server with nothing but one access address has only that. */
  lemma SoleAddress(srv: Server, opts: NetworkingOpts)
    requires srv.accessIPv4 != "" && srv.accessIPv6 == "" && srv.metadata == map[] && srv.addresses == Some(map[])
    ensures NodeAddressesOf(srv, opts) == Success([NodeAddress(ExternalIP, srv.accessIPv4)])
  {
    var x := NodeAddress(ExternalIP, srv.accessIPv4);
    CardToSet(Networks({}));
    assert Candidates(srv, opts) == [x];
    DedupNext([], x);
    assert [] + [x] == [x];
  }

  /** The keys of a map in an undefined order. */
  method MapKeys(m: map<string, seq<string>>) returns (keys: seq<string>)
    ensures NoDup(keys) && ToSet(keys) == m.Keys
  {
    keys := [];
    var rest := m.Keys;
    while rest != {}
      invariant rest <= m.Keys && NoDup(keys) && ToSet(keys) == m.Keys - rest
      decreases rest
    {
      var k :| k in rest;
      assert k !in ToSet(keys) && ToSet(keys + [k]) == ToSet(keys) + {k};
      keys, rest := keys + [k], rest - {k};
    }
  }

  method NodeAddresses(srv: Server, opts: NetworkingOpts) returns (r: Result<seq<NodeAddress>>)
    ensures r == NodeAddressesOf(srv, opts)
    ensures r.Success? <==> srv.addresses.Some?
    ensures r.Success? ==> forall x :: x in r.value <==> Reports(srv, opts, x.kind, x.address)
    ensures r.Success? ==> NoDup(r.value) && exists m, n :: Arranged(r.value, srv, opts, m, n)
  {
    hide Dedup, FromNetworks, Arranged, Reports;
    var list := new AddressList();
    AddFixed(list, srv, opts);
    if srv.addresses.None? {
      return Fail(ErrInvalid);
    }
    var addresses := srv.addresses.value;
    var keys := MapKeys(addresses);
    var networks := Sort(keys, Self);
    SortEnumerates(keys);
    EnumerationUnique(networks, Networks(addresses.Keys), addresses.Keys);
    AddNetworks(list, networks, addresses, opts, Fixed(srv, opts));
    AddressesMeaning(srv, opts);
    return Success(list.addrs);
  }

  /** The access addresses and the host name. */
  method AddFixed(list: AddressList, srv: Server, opts: NetworkingOpts)
    requires list.addrs == []
    modifies list
    ensures list.addrs == Dedup(Fixed(srv, opts))
  {
    ghost var sofar: seq<NodeAddress> := [];
    if srv.accessIPv4 != "" {
      list.AddToNodeAddresses([NodeAddress(ExternalIP, srv.accessIPv4)], sofar);
      sofar := sofar + [NodeAddress(ExternalIP, srv.accessIPv4)];
    }
    if srv.accessIPv6 != "" && !opts.ipv6SupportDisabled {
      list.AddToNodeAddresses([NodeAddress(ExternalIP, srv.accessIPv6)], sofar);
      sofar := sofar + [NodeAddress(ExternalIP, srv.accessIPv6)];
    }
    if TYPE_HOST_NAME in srv.metadata && srv.metadata[TYPE_HOST_NAME] != "" {
      list.AddToNodeAddresses([NodeAddress(HostName, srv.metadata[TYPE_HOST_NAME])], sofar);
      sofar := sofar + [NodeAddress(HostName, srv.metadata[TYPE_HOST_NAME])];
    }
    assert sofar == Fixed(srv, opts);
  }

  /** The loop over the sorted networks. */
  method AddNetworks(list: AddressList, networks: seq<string>, addresses: map<string, seq<string>>,
                     opts: NetworkingOpts, ghost fixed: seq<NodeAddress>)
    requires forall n :: n in networks ==> n in addresses
    requires list.addrs == Dedup(fixed)
    modifies list
    ensures list.addrs == Dedup(fixed + FromNetworks(networks, addresses, opts))
  {
    hide Dedup, PublishedAll;
    assert fixed + FromNetworks(networks[..0], addresses, opts) == fixed;
    for i := 0 to |networks|
      invariant list.addrs == Dedup(fixed + FromNetworks(networks[..i], addresses, opts))
    {
      AddNetwork(list, networks[i], addresses[networks[i]], opts, fixed + FromNetworks(networks[..i], addresses, opts));
      FromNetworksNext(fixed, networks, i, addresses, opts);
    }
    assert networks[..|networks|] == networks;
  }

  lemma FromNetworksNext(fixed: seq<NodeAddress>, networks: seq<string>, i: nat, addresses: map<string, seq<string>>,
                         opts: NetworkingOpts)
    requires i < |networks| && forall n :: n in networks ==> n in addresses
    ensures fixed + FromNetworks(networks[..i + 1], addresses, opts)
         == fixed + FromNetworks(networks[..i], addresses, opts)
            + PublishedAll(networks[i], addresses[networks[i]], opts)
  {
    assert networks[..i + 1][..i] == networks[..i];
  }

  /** The loop over the addresses of one network. */
  method AddNetwork(list: AddressList, network: string, addrs: seq<string>, opts: NetworkingOpts,
                    ghost before: seq<NodeAddress>)
    requires list.addrs == Dedup(before)
    modifies list
    ensures list.addrs == Dedup(before + PublishedAll(network, addrs, opts))
  {
    assert before + PublishedAll(network, addrs[..0], opts) == before;
    for j := 0 to |addrs|
      invariant list.addrs == Dedup(before + PublishedAll(network, addrs[..j], opts))
    {
      ghost var sofar := before + PublishedAll(network, addrs[..j], opts);
      PublishedNext(network, addrs, j, opts);
      assert before + PublishedAll(network, addrs[..j + 1], opts) == sofar + Published(network, addrs[j], opts);
      var addressType;
      if network == opts.publicNetworkName {
        addressType := ExternalIP;
      } else if network == opts.internalNetworkName {
        addressType := InternalIP;
      } else {
        assert sofar + Published(network, addrs[j], opts) == sofar;
        continue;
      }
      if !(opts.isIPv6(addrs[j]) && opts.ipv6SupportDisabled) {
        list.AddToNodeAddresses([NodeAddress(addressType, addrs[j])], sofar);
      } else {
        assert sofar + Published(network, addrs[j], opts) == sofar;
      }
    }
    assert addrs[..|addrs|] == addrs;
  }

  lemma PublishedNext(network: string, addrs: seq<string>, j: nat, opts: NetworkingOpts)
    requires j < |addrs|
    ensures PublishedAll(network, addrs[..j + 1], opts)
         == PublishedAll(network, addrs[..j], opts) + Published(network, addrs[j], opts)
  {
    assert addrs[..j + 1][..j] == addrs[..j];
  }

  /** The first address of a type and family. */
  function FirstOf(addrs: seq<NodeAddress>, kind: AddressType, needIPv6: bool, isIPv6: string -> bool): Option<string> {
    if addrs == [] then None
    else if addrs[0].kind == kind && isIPv6(addrs[0].address) == needIPv6 then Some(addrs[0].address)
    else FirstOf(addrs[1..], kind, needIPv6, isIPv6)
  }

  /** The next hop: internal before external, and always of the requested family. */
  function Preferred(addrs: seq<NodeAddress>, needIPv6: bool, isIPv6: string -> bool): Result<string> {
    match FirstOf(addrs, InternalIP, needIPv6, isIPv6)
    case Some(a) => Success(a)
    case None =>
      match FirstOf(addrs, ExternalIP, needIPv6, isIPv6)
      case Some(a) => Success(a)
      case None => Fail(ErrNoAddressFound)
  }

  ghost predicate FirstAt(addrs: seq<NodeAddress>, kind: AddressType, needIPv6: bool,
                          isIPv6: string -> bool, x: string, i: nat)
    requires i < |addrs|
  {
    addrs[i] == NodeAddress(kind, x) &&
    forall j :: 0 <= j < i ==> addrs[j].kind != kind || isIPv6(addrs[j].address) != needIPv6
  }

  lemma {:induction false} FirstOfMeaning(addrs: seq<NodeAddress>, kind: AddressType, needIPv6: bool,
                                          isIPv6: string -> bool)
    ensures match FirstOf(addrs, kind, needIPv6, isIPv6)
            case None => forall a :: a in addrs ==> a.kind != kind || isIPv6(a.address) != needIPv6
            case Some(x) =>
              isIPv6(x) == needIPv6 && exists i :: 0 <= i < |addrs| && FirstAt(addrs, kind, needIPv6, isIPv6, x, i)
  {
    if addrs != [] {
      var x := FirstOf(addrs[1..], kind, needIPv6, isIPv6);
      FirstOfMeaning(addrs[1..], kind, needIPv6, isIPv6);
      assert addrs == [addrs[0]] + addrs[1..];
      if addrs[0].kind == kind && isIPv6(addrs[0].address) == needIPv6 {
        assert FirstAt(addrs, kind, needIPv6, isIPv6, addrs[0].address, 0);
      } else if x.Some? {
        var i :| 0 <= i < |addrs| - 1 && FirstAt(addrs[1..], kind, needIPv6, isIPv6, x.value, i);
        assert forall j :: 0 < j < i + 1 ==> addrs[j] == addrs[1..][j - 1];
        assert FirstAt(addrs, kind, needIPv6, isIPv6, x.value, i + 1);
      }
    }
  }

  /** A next hop is one of the addresses, of the requested family, and external only for want of an internal one. */
  lemma PreferredMeaning(addrs: seq<NodeAddress>, needIPv6: bool, isIPv6: string -> bool)
    ensures match Preferred(addrs, needIPv6, isIPv6)
            case Success(x) =>
              && isIPv6(x) == needIPv6
              && (NodeAddress(InternalIP, x) in addrs ||
                  (NodeAddress(ExternalIP, x) in addrs &&
                   forall a :: a in addrs && a.kind == InternalIP ==> isIPv6(a.address) != needIPv6))
            case Fail(e) =>
              && e == ErrNoAddressFound
              && forall a :: a in addrs && a.kind != HostName ==> isIPv6(a.address) != needIPv6
  {
    FirstOfMeaning(addrs, InternalIP, needIPv6, isIPv6);
    FirstOfMeaning(addrs, ExternalIP, needIPv6, isIPv6);
  }
}
