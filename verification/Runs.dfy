/** Claims about several calls in a row. */
module Runs {
  import opened Basics
  import opened Sequences
  import opened Names
  import opened Resources
  import opened Traces
  import opened Clouds
  import opened Listing
  import opened Polling
  import opened Membership
  import opened Members
  import opened AccessLists
  import opened Convergence
  import opened Balancers

  /** A call for a service of some cluster. */
  datatype Call =
    | Ensure(cluster: string, service: Service, nodes: seq<Node>)
    | Update(cluster: string, service: Service, nodes: seq<Node>)
    | Delete(cluster: string, service: Service)
    | Lookup(cluster: string, service: Service)
  {
    function Name(): string {
      ServiceLBName(cluster, service)
    }

    function Owner(): Identity {
      Identity(cluster, service.namespace, service.name)
    }

    ghost predicate Proper() {
      (Ensure? || Update?) ==> ProperNodes(nodes)
    }
  }

  predicate UsesName(calls: seq<Call>, name: string) {
    exists call :: call in calls && call.Name() == name
  }

  /** What a run keeps: shared virtual IPs, and every load balancer of a name that no call is for. */
  ghost predicate RunKeeps(w0: World, w: World, calls: seq<Call>) {
    && SharingKept(w0, w)
    && forall name :: !UsesName(calls, name) ==> Untouched(w0, w, name)
  }

  /** Any number of calls for any services of any clusters, each failing wherever it may. */
  method Run(c: CloudLb, calls: seq<Call>)
    requires c.lb.Valid() && ActiveProtocol(c.lb.trace)
    requires forall call :: call in calls ==> call.Proper()
    modifies c.lb
    ensures c.lb.Valid() && ActiveProtocol(c.lb.trace) && RunKeeps(old(c.lb.w), c.lb.w, calls)
  {
    hide Call.Proper, Cloud.Valid, ActiveProtocol, RunKeeps, SharingKept, Framed;
    ghost var w0 := c.lb.w;
    RunKeepsNone(w0);
    assert calls[..0] == [];
    for i := 0 to |calls|
      invariant c.lb.Valid() && ActiveProtocol(c.lb.trace) && RunKeeps(w0, c.lb.w, calls[..i])
    {
      ghost var w := c.lb.w;
      assert calls[i] in calls;
      Perform(c, calls[i]);
      RunKeepsMore(w0, w, c.lb.w, calls, i);
    }
    assert calls[..|calls|] == calls;
  }

  method Perform(c: CloudLb, call: Call)
    requires c.lb.Valid() && ActiveProtocol(c.lb.trace) && call.Proper()
    modifies c.lb
    ensures c.lb.Valid() && ActiveProtocol(c.lb.trace)
    ensures Framed(old(c.lb.w), c.lb.w, call.Name()) && SharingKept(old(c.lb.w), c.lb.w)
  {
    hide ValidRecord, ActiveProtocol, ProperNodes, Reaped, MembersChanged, Framed, SharingKept, Reconciled,
         UpdatedThrough, FirstOnPort, ServiceLBName, Valids, LiveNamed, NodeOrder, AllAddressed, Acceptable;
    ghost var w, name := c.lb.w, call.Name();
    match call
    case Ensure(cluster, service, nodes) =>
      var list := ListOf(nodes);
      ghost var t, g := c.lb.trace, GoalOf(cluster, service, c.parse, list[..]);
      var r, served := c.EnsureLoadBalancer(cluster, service, list);
      ReconciledFrame(w, t, Valids(Collection(w), name), c.lb.w, c.lb.trace, service.ports, g, served, r);
    case Update(cluster, service, nodes) =>
      var list := ListOf(nodes);
      var _, _ := c.UpdateLoadBalancer(cluster, service, list);
      MembersChangedFrame(w, c.lb.w, name);
    case Delete(cluster, service) =>
      var _ := c.EnsureLoadBalancerDeleted(cluster, service);
      ReapedVips(w, c.lb.w, LiveNamed(w, name));
    case Lookup(cluster, service) =>
      var _, _ := c.GetLoadBalancer(cluster, service);
      NothingChanged(w, name);
  }

  lemma ReconciledFrame(w0: World, t0: Trace, listed: seq<LoadBalancer>, w: World, t: Trace, ports: seq<ServicePort>,
                        g: Goal, served: seq<nat>, r: Result<string>)
    requires Reconciled(w0, t0, listed, w, t, ports, g, served, r)
    ensures Framed(w0, w, g.name) && SharingKept(w0, w)
  {
  }

  lemma MembersChangedFrame(w0: World, w: World, name: string)
    requires MembersChanged(w0, w, name)
    ensures Framed(w0, w, name) && SharingKept(w0, w)
  {
    hide MembersChanged, Framed, SharingKept;
    MembersChangedFramed(w0, w, name);
    MembersChangedSafe(w0, w, name);
    FramedSharing(w0, w, name);
  }

  lemma NothingChanged(w: World, name: string)
    ensures Framed(w, w, name) && SharingKept(w, w)
  {
  }

  lemma RunKeepsNone(w: World)
    ensures RunKeeps(w, w, [])
  {
  }

  lemma RunKeepsMore(w0: World, w1: World, w2: World, calls: seq<Call>, i: nat)
    requires i < |calls| && RunKeeps(w0, w1, calls[..i])
    requires Framed(w1, w2, calls[i].Name()) && SharingKept(w1, w2)
    ensures RunKeeps(w0, w2, calls[..i + 1])
  {
    hide VipsSharedOf, Framed, Call.Name;
    assert calls[i] in calls[..i + 1];
    forall name | !UsesName(calls[..i + 1], name) ensures Untouched(w0, w2, name) {
      assert !UsesName(calls[..i], name) by {
        assert forall call :: call in calls[..i] ==> call in calls[..i + 1];
      }
      OtherNamesUntouched(w1, w2, calls[i].Name(), name);
    }
  }

  /** Different services with names within the limit do not touch each other's load balancers. */
  lemma ServicesDoNotInterfere(w0: World, w: World, cluster: string, s: Service, t: Service)
    requires Framed(w0, w, ServiceLBName(cluster, s))
    requires (s.namespace, s.name) != (t.namespace, t.name)
    requires DnsLabels(Identity(cluster, s.namespace, s.name)) && DnsLabels(Identity(cluster, t.namespace, t.name))
    requires |FullName(Identity(cluster, s.namespace, s.name))| <= NAME_LIMIT
    requires |FullName(Identity(cluster, t.namespace, t.name))| <= NAME_LIMIT
    ensures Untouched(w0, w, ServiceLBName(cluster, t))
  {
    NameInjective(Identity(cluster, s.namespace, s.name), Identity(cluster, t.namespace, t.name));
    OtherNamesUntouched(w0, w, ServiceLBName(cluster, s), ServiceLBName(cluster, t));
  }

  /** A service whose name fits the limit, and no call for it: whatever other services do, its load balancers stay. */
  method RunApart(c: CloudLb, calls: seq<Call>, cluster: string, service: Service)
    requires c.lb.Valid() && ActiveProtocol(c.lb.trace)
    requires forall call :: call in calls ==> call.Proper() && DnsLabels(call.Owner())
    requires forall call :: call in calls ==> call.Owner() != Identity(cluster, service.namespace, service.name)
    requires DnsLabels(Identity(cluster, service.namespace, service.name))
    requires |FullName(Identity(cluster, service.namespace, service.name))| < NAME_LIMIT
    modifies c.lb
    ensures Untouched(old(c.lb.w), c.lb.w, ServiceLBName(cluster, service))
  {
    hide Cloud.Valid, ActiveProtocol, SharingKept, Untouched, Call.Proper, DnsLabels;
    Run(c, calls);
    forall call | call in calls ensures call.Name() != ServiceLBName(cluster, service) {
      SharedNameExactly(call.Owner(), Identity(cluster, service.namespace, service.name));
    }
  }

  method ListOf(nodes: seq<Node>) returns (list: array<Node>)
    ensures fresh(list) && list[..] == nodes
  {
    list := new Node[|nodes|](i requires 0 <= i < |nodes| => nodes[i]);
  }

  /** A lookup after a successful ensure finds an address: the reported one, if the virtual IPs were shared. */
  method EnsureThenGet(c: CloudLb, cluster: string, service: Service, nodes: array<Node>)
    returns (ensured: Result<string>, looked: Result<Option<string>>)
    requires c.lb.Valid() && ActiveProtocol(c.lb.trace) && ProperNodes(nodes[..])
    modifies c.lb, nodes
    ensures ensured.Success? && looked.Success? ==> looked.value.Some?
    ensures ensured.Success? && looked.Success? && VipsSharedOf(old(c.lb.w), ServiceLBName(cluster, service)) ==>
              looked.value == Some(ensured.value)
  {
    hide VipsSharedOf, ProperNodes, ValidRecord, Reconciled, ActiveProtocol, Valids, LiveNamed;
    ghost var w0, t0, g, name := c.lb.w, c.lb.trace, GoalOf(cluster, service, c.parse, nodes[..]),
                                 ServiceLBName(cluster, service);
    ghost var served, id;
    ensured, served := c.EnsureLoadBalancer(cluster, service, nodes);
    ghost var t1 := c.lb.trace;
    looked, id := c.GetLoadBalancer(cluster, service);
    if ensured.Success? && looked.Success? {
      SameIngress(w0, t0, Valids(Collection(w0), name), c.lb.w, t1, service.ports, g, served, ensured, id,
                  looked.value.None?);
    }
  }

  lemma SameIngress(w0: World, t0: Trace, listed: seq<LoadBalancer>, w: World, t: Trace, ports: seq<ServicePort>,
                    g: Goal, served: seq<nat>, r: Result<string>, id: nat, missing: bool)
    requires Reconciled(w0, t0, listed, w, t, ports, g, served, r) && r.Success? && ports != []
    requires if missing then forall j :: j in LiveNamed(w, g.name) ==> w.lbs[j].lb.port != ports[0].port
             else id in LiveNamed(w, g.name)
    ensures !missing && (VipsSharedOf(w0, g.name) ==> IngressOf(w, id) == r.value)
  {
    hide Framed, Touched, Matches, NoChurn, InOrder, RemovesLast;
    assert Served(w0, w, served[0], ports[0], g) && served[0] in ToSet(served);
    assert served[|served| - 1] in ToSet(served);
  }

  /** A second ensure keeps the same load balancers, and writes nothing exactly when each port finds its own again. */
  method EnsureTwice(c: CloudLb, cluster: string, service: Service, nodes: array<Node>)
    returns (first: Result<string>, second: Result<string>, ghost w1: World, ghost t1: Trace)
    requires c.lb.Valid() && ActiveProtocol(c.lb.trace) && ProperNodes(nodes[..])
    modifies c.lb, nodes
    ensures first.Success? && second.Success? ==>
              LiveNamed(c.lb.w, ServiceLBName(cluster, service)) == LiveNamed(w1, ServiceLBName(cluster, service))
    ensures first.Success? && DistinctPorts(service.ports) ==> Adds(t1, c.lb.trace, {Poll})
    ensures ValidWorld(w1)
    ensures second.Success? ==>
              var listed := Valids(Collection(w1), ServiceLBName(cluster, service));
              Adds(t1, c.lb.trace, {Poll}) <==>
              InOrder(w1, listed, service.ports, GoalOf(cluster, service, c.parse, old(nodes[..])))
  {
    hide ProperNodes, ValidRecord, Reconciled, ActiveProtocol, NodeOrder, Valids, LiveNamed, DistinctPorts, InOrder,
         Adds;
    ghost var w0, t0, name, ns := c.lb.w, c.lb.trace, ServiceLBName(cluster, service), nodes[..];
    ghost var g, l0 := GoalOf(cluster, service, c.parse, nodes[..]), Valids(Collection(w0), name);
    ghost var a, b;
    first, a := c.EnsureLoadBalancer(cluster, service, nodes);
    w1, t1 := c.lb.w, c.lb.trace;
    NodesKept(ns, nodes[..]);
    NodesKept(ns, NodeOrder(ns));
    ghost var l1 := Valids(Collection(w1), name);
    ValidsList(w1, name);
    second, b := c.EnsureLoadBalancer(cluster, service, nodes);
    QuietExactly(w1, t1, l1, c.lb.w, c.lb.trace, service.ports, g, b, second);
    if first.Success? {
      if second.Success? {
        SameBalancers(w0, t0, l0, w1, t1, a, first, l1, c.lb.w, c.lb.trace, b, second, service.ports, g);
      }
      if DistinctPorts(service.ports) {
        OnlyPolled(w0, t0, l0, w1, t1, a, first, l1, c.lb.w, c.lb.trace, b, second, service.ports, g);
      }
    }
  }

  lemma SameBalancers(w0: World, t0: Trace, l0: seq<LoadBalancer>, w1: World, t1: Trace, a: seq<nat>,
                      first: Result<string>, l1: seq<LoadBalancer>, w2: World, t2: Trace, b: seq<nat>,
                      second: Result<string>, ports: seq<ServicePort>, g: Goal)
    requires Reconciled(w0, t0, l0, w1, t1, ports, g, a, first) && first.Success?
    requires Reconciled(w1, t1, l1, w2, t2, ports, g, b, second) && second.Success?
    ensures LiveNamed(w2, g.name) == LiveNamed(w1, g.name)
  {
    hide Framed, Touched, Matches, NoChurn, InOrder, RemovesLast, SharingKept, ServedAll, LiveNamed, LiveOn;
    forall v: int ensures |LiveOn(w2, g.name, v, None)| == |LiveOn(w1, g.name, v, None)| {
      LiveCountsMatchPorts(w0, w1, a, ports, g, v, None);
      LiveCountsMatchPorts(w1, w2, b, ports, g, v, None);
    }
    EqualCountsSameSet(w1, w2, g.name);
  }

  lemma QuietExactly(w0: World, t0: Trace, listed: seq<LoadBalancer>, w: World, t: Trace, ports: seq<ServicePort>,
                     g: Goal, served: seq<nat>, r: Result<string>)
    requires Reconciled(w0, t0, listed, w, t, ports, g, served, r)
    ensures r.Success? ==> (Adds(t0, t, {Poll}) <==> InOrder(w0, listed, ports, g))
  {
  }

  lemma OnlyPolled(w0: World, t0: Trace, l0: seq<LoadBalancer>, w1: World, t1: Trace, a: seq<nat>,
                   first: Result<string>, l1: seq<LoadBalancer>, w2: World, t2: Trace, b: seq<nat>,
                   second: Result<string>, ports: seq<ServicePort>, g: Goal)
    requires Reconciled(w0, t0, l0, w1, t1, ports, g, a, first) && first.Success? && ports != []
    requires Reconciled(w1, t1, l1, w2, t2, ports, g, b, second) && Lists(w1, g.name, l1)
    requires DistinctPorts(ports) && ProperNodes(g.nodes)
    ensures Adds(t1, t2, {Poll})
  {
    hide Framed, Touched, Matches, NoChurn, InOrder, RemovesLast, SharingKept, ServedAll, LiveNamed, ProperNodes,
         AllAddressed, Lists, DistinctPorts, Converged;
    ServedConverged(w0, w1, a, l1, ports, g);
    ListsDistinct(w1, g.name, l1);
    ConvergedInOrder(w1, l1, ports, g);
  }

  /**
   * Two ports on one number, and another port before them: taking the other's load balancer out of the list brings the
   * last one to the front. So an ensure gives the TCP port the load balancer that is listed last, whatever it served.
   */
  method EnsureSwaps(c: CloudLb, cluster: string, service: Service, nodes: array<Node>, x: LoadBalancer,
                     tcp: LoadBalancer, udp: LoadBalancer) returns (r: Result<string>)
    requires c.lb.Valid() && ActiveProtocol(c.lb.trace) && ProperNodes(nodes[..])
    requires KeepClientIP(service) == Some(false)
    requires Valids(Collection(c.lb.w), ServiceLBName(cluster, service)) == [x, tcp, udp]
    requires |service.ports| == 3 && service.ports[1].protocol == "TCP" && service.ports[2].protocol == "UDP"
    requires x.port == service.ports[0].port != service.ports[1].port == service.ports[2].port == tcp.port == udp.port
    modifies c.lb, nodes
    ensures r.Success? ==>
              && udp.id in c.lb.w.lbs && c.lb.w.lbs[udp.id].lb.protocol == "TCP_CLIENT_FIRST"
              && tcp.id in c.lb.w.lbs && c.lb.w.lbs[tcp.id].lb.protocol == "UDP"
              && Keys(c.lb.w.lbs[udp.id].members) ==
                 FinalKeys(Keys(MembersAt(old(c.lb.w), udp.id)),
                           Wanted(NodeOrder(old(nodes[..])), service.ports[1].nodePort))
              && Keys(c.lb.w.lbs[tcp.id].members) ==
                 FinalKeys(Keys(MembersAt(old(c.lb.w), tcp.id)),
                           Wanted(NodeOrder(old(nodes[..])), service.ports[2].nodePort))
  {
    hide ProperNodes, ValidRecord, Reconciled, ActiveProtocol, NodeOrder, Valids, LiveNamed, FinalKeys, Wanted;
    ghost var w0, t0, g := c.lb.w, c.lb.trace, GoalOf(cluster, service, c.parse, nodes[..]);
    ghost var served;
    r, served := c.EnsureLoadBalancer(cluster, service, nodes);
    if r.Success? {
      Swapped(w0, t0, x, tcp, udp, c.lb.w, c.lb.trace, service.ports, g, served, r);
    }
  }

  lemma Swapped(w0: World, t0: Trace, x: LoadBalancer, tcp: LoadBalancer, udp: LoadBalancer, w: World, t: Trace,
                ports: seq<ServicePort>, g: Goal, served: seq<nat>, r: Result<string>)
    requires Reconciled(w0, t0, [x, tcp, udp], w, t, ports, g, served, r) && r.Success?
    requires |ports| == 3 && x.port == ports[0].port != ports[1].port == ports[2].port == tcp.port == udp.port
    ensures Served(w0, w, udp.id, ports[1], g) && Served(w0, w, tcp.id, ports[2], g)
  {
    hide Framed, Touched, NoChurn, InOrder, RemovesLast, SharingKept, Served, LiveNamed;
    var lbs := [x, tcp, udp];
    SwapMatching(lbs, ports);
    assert Takes(w0, Left(lbs, ports[..1]), Left(lbs, ports[..2]), ports[1].port, served[1]);
    assert Takes(w0, Left(lbs, ports[..2]), Left(lbs, ports[..3]), ports[2].port, served[2]);
    assert Served(w0, w, served[1], ports[1], g) && Served(w0, w, served[2], ports[2], g);
  }

  /** The matching of three listed load balancers with three ports of which the last two share a number. */
  lemma {:induction false} SwapMatching(lbs: seq<LoadBalancer>, ports: seq<ServicePort>)
    requires |lbs| == 3 && |ports| == 3 && lbs[0].port == ports[0].port != ports[1].port == ports[2].port
    requires lbs[1].port == lbs[2].port == ports[1].port
    ensures Left(lbs, ports[..1]) == [lbs[2], lbs[1]]
    ensures FirstOnPort(Left(lbs, ports[..1]), ports[1].port) == Some(lbs[2])
    ensures Left(lbs, ports[..2]) == [lbs[1]] && FirstOnPort(Left(lbs, ports[..2]), ports[2].port) == Some(lbs[1])
  {
    assert ports[..1][..0] == [] && ports[..2][..1] == ports[..1];
    assert Without(lbs, lbs[0].id) == [lbs[2], lbs[1]];
    assert Without([lbs[2], lbs[1]], lbs[2].id) == [lbs[1]];
  }

  /** Interrupted reconciliations of one load balancer's members, repeated until one completes. */
  method RetryNodes(lb: Cloud, id: nat, nodePort: int, nodes: array<Node>, attempts: nat) returns (err: Option<Error>)
    requires lb.Valid() && ActiveProtocol(lb.trace) && ProperNodes(nodes[..]) && AllAddressed(nodes[..])
    modifies lb, nodes
    ensures ActiveProtocol(lb.trace)
    ensures var before, after := Keys(MembersAt(old(lb.w), id)), Keys(MembersAt(lb.w, id));
            var d := Wanted(NodeOrder(old(nodes[..])), nodePort);
            && before * ToSet(d) <= after
            && (err.None? ==> after == FinalKeys(before, d))
  {
    hide ProperNodes, Cloud.Valid, FinalKeys, NodesOnly, Partial, Wanted, NodeOrder;
    err := Some(ErrTimeout);
    ghost var k0, d := Keys(MembersAt(lb.w, id)), Wanted(NodeOrder(nodes[..]), nodePort);
    ghost var order := NodeOrder(nodes[..]);
    NodesKept(nodes[..], order);
    PermutedNodes(nodes[..], order, nodePort);
    WantedNoDup(order, nodePort);
    for i := 0 to attempts
      invariant lb.Valid() && ActiveProtocol(lb.trace) && err.Some?
      invariant ProperNodes(nodes[..]) && AllAddressed(nodes[..]) && NodeOrder(nodes[..]) == order
      invariant FinalKeys(Keys(MembersAt(lb.w, id)), d) == FinalKeys(k0, d)
      invariant k0 * ToSet(d) <= Keys(MembersAt(lb.w, id))
    {
      ghost var w1, t1, ns := lb.w, lb.trace, nodes[..];
      err := WaitLoadbalancerActiveStatus(lb, id);
      PollsWriteNothing(t1, lb.trace, id);
      SettledMembers(w1, lb.w, id);
      if err.None? {
        ghost var k1 := Keys(MembersAt(lb.w, id));
        err := EnsureLoadBalancerNodes(lb, id, nodePort, nodes);
        NodesKept(ns, nodes[..]);
        PermutedNodes(ns, nodes[..], nodePort);
        InterruptionRecovers(k1, d, Keys(MembersAt(lb.w, id)));
        PartialKeeps(k1, d, Keys(MembersAt(lb.w, id)));
        if err.None? {
          return None;
        }
      }
    }
  }

  /** Bringing the access list in line twice: the second time writes nothing, in whatever order the set is traversed. */
  method AccessTwice(lb: Cloud, id: nat, ranges: set<string>)
    returns (first: Option<Error>, second: Option<Error>, ghost w1: World, ghost t1: Trace)
    requires lb.Valid() && ActiveProtocol(lb.trace)
    modifies lb
    ensures first.None? && LiveAt(w1, id) ==> AccessInLine(AccessAt(old(lb.w), id), AccessAt(w1, id), ranges)
    ensures first.None? && LiveAt(w1, id) ==> lb.w == w1 && lb.trace == t1
  {
    hide SameAccess, AccessMatches, Desired;
    ghost var w0 := lb.w;
    var items := BuildAccess(ranges);
    first := EnsureLoadBalancerAccesslists(lb, id, items);
    w1, t1 := lb.w, lb.trace;
    var again := BuildAccess(ranges);
    DesiredMatches(items, ranges);
    DesiredMatches(again, ranges);
    MatchesBySet(AccessAt(w0, id), items, ranges);
    MatchesBySet(AccessAt(w1, id), items, ranges);
    MatchesBySet(items, items, ranges);
    MatchesBySet(AccessAt(w1, id), again, ranges);
    second := EnsureLoadBalancerAccesslists(lb, id, again);
  }

  /**
   * Ensures and updates of one service with the same nodes, in any mixture and each ending wherever it may, then an
   * ensure that succeeds: with distinct port numbers every port is served as if that had been the only call.
   */
  method Retried(c: CloudLb, cluster: string, service: Service, nodes: array<Node>, updates: seq<bool>)
    returns (r: Result<string>, ghost served: seq<nat>)
    requires c.lb.Valid() && ActiveProtocol(c.lb.trace) && ProperNodes(nodes[..]) && DistinctPorts(service.ports)
    modifies c.lb, nodes
    ensures r.Success? ==>
              && LiveNamed(c.lb.w, ServiceLBName(cluster, service)) == ToSet(served) && NoDup(served)
              && ServedAll(old(c.lb.w), c.lb.w, served, service.ports,
                           GoalOf(cluster, service, c.parse, old(nodes[..])))
  {
    hide ProperNodes, DistinctPorts, ValidRecord, Reconciled, ActiveProtocol, NodeOrder, Valids, LiveNamed, Recoverable,
         ServedAll, MembersChanged, UpdatedThrough, AllAddressed, FirstOnPort, ServiceLBName;
    ghost var w0, g, ns := c.lb.w, GoalOf(cluster, service, c.parse, nodes[..]), nodes[..];
    NodesKept(ns, NodeOrder(ns));
    RecoverableNone(w0, service.ports, g);
    for i := 0 to |updates|
      invariant c.lb.Valid() && ActiveProtocol(c.lb.trace) && Recoverable(w0, c.lb.w, service.ports, g)
      invariant ProperNodes(nodes[..]) && NodeOrder(nodes[..]) == g.nodes
    {
      Attempt(c, cluster, service, nodes, updates[i], w0, g);
    }
    ghost var w1, t1 := c.lb.w, c.lb.trace;
    ghost var l1 := Valids(Collection(w1), ServiceLBName(cluster, service));
    r, served := c.EnsureLoadBalancer(cluster, service, nodes);
    if r.Success? {
      RecoveredAll(w0, w1, t1, l1, c.lb.w, c.lb.trace, service.ports, g, served, r);
    }
  }

  lemma RecoveredAll(w0: World, w1: World, t1: Trace, l1: seq<LoadBalancer>, w: World, t: Trace,
                     ports: seq<ServicePort>, g: Goal, served: seq<nat>, r: Result<string>)
    requires Recoverable(w0, w1, ports, g) && Reconciled(w1, t1, l1, w, t, ports, g, served, r) && r.Success?
    ensures LiveNamed(w, g.name) == ToSet(served) && NoDup(served) && ServedAll(w0, w, served, ports, g)
  {
    hide Recoverable, Framed, Touched, Matches, NoChurn, InOrder, RemovesLast, SharingKept, ServedAll, LiveNamed;
    RecoveredServed(w0, w1, w, served, ports, g);
  }

  /** One attempt, an ensure or an update. */
  method Attempt(c: CloudLb, cluster: string, service: Service, nodes: array<Node>, update: bool, ghost w0: World,
                 ghost g: Goal)
    requires c.lb.Valid() && ActiveProtocol(c.lb.trace) && ProperNodes(nodes[..]) && DistinctPorts(service.ports)
    requires g == GoalOf(cluster, service, c.parse, nodes[..]) && ProperNodes(g.nodes)
    requires Recoverable(w0, c.lb.w, service.ports, g)
    modifies c.lb, nodes
    ensures c.lb.Valid() && ActiveProtocol(c.lb.trace) && Recoverable(w0, c.lb.w, service.ports, g)
    ensures ProperNodes(nodes[..]) && NodeOrder(nodes[..]) == g.nodes
  {
    hide ProperNodes, DistinctPorts, ValidRecord, Reconciled, ActiveProtocol, NodeOrder, Valids, LiveNamed, Recoverable,
         MembersChanged, UpdatedThrough, AllAddressed, FirstOnPort, ServiceLBName, Framed, Touched, Lists;
    ghost var w1, t1, ns := c.lb.w, c.lb.trace, nodes[..];
    ghost var l1 := Valids(Collection(w1), g.name);
    if update {
      ghost var err, done;
      err, done := c.UpdateLoadBalancer(cluster, service, nodes);
      ValidsList(w1, g.name);
      MembersChangedFramed(w1, c.lb.w, g.name);
      UpdatedTouched(w1, c.lb.w, l1, service.ports, done, g);
    } else {
      var r;
      ghost var served;
      r, served := c.EnsureLoadBalancer(cluster, service, nodes);
      ReconciledTouched(w1, t1, l1, c.lb.w, c.lb.trace, service.ports, g, served, r);
    }
    NodesKept(ns, nodes[..]);
    RecoverableMore(w0, w1, c.lb.w, service.ports, g);
  }

  lemma ReconciledTouched(w0: World, t0: Trace, listed: seq<LoadBalancer>, w: World, t: Trace, ports: seq<ServicePort>,
                          g: Goal, served: seq<nat>, r: Result<string>)
    requires Reconciled(w0, t0, listed, w, t, ports, g, served, r)
    ensures Framed(w0, w, g.name) && Touched(w0, w, ports, g)
  {
  }

  lemma PartialKeeps(m: set<Key>, d: seq<Key>, m': set<Key>)
    requires NoDup(d) && Partial(m, d, m')
    ensures m * ToSet(d) <= m'
  {
    FinalExact(m, d);
  }

  /** A port served by a new load balancer has exactly the first nodes in order. */
  lemma NewlyServed(w0: World, w: World, id: nat, p: ServicePort, g: Goal)
    requires Served(w0, w, id, p, g) && id !in w0.lbs
    requires ProperNodes(g.nodes) && AllAddressed(g.nodes)
    ensures Keys(w.lbs[id].members) == ToSet(Take(Wanted(g.nodes, p.nodePort), MAX_NODE_LIMIT))
  {
    WantedNoDup(g.nodes, p.nodePort);
    assert Keys([]) == {};
    FromEmpty(Wanted(g.nodes, p.nodePort));
  }
}
