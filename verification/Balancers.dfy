/** The load balancer controller: ensure, update, delete and look up the load balancers of one service. */
module Balancers {
  import opened Basics
  import opened Sequences
  import opened Slices
  import opened Names
  import opened Resources
  import opened Traces
  import opened Paging
  import opened Clouds
  import opened Listing
  import opened Polling
  import opened Membership
  import opened Members
  import opened SourceRanges
  import opened AccessLists
  import opened Convergence

  const FORWARDED_FOR_KEY := "loadbalancer.openstack.org/x-forwarded-for"

  /** The boolean annotation; None for a text other than "true" and "false". */
  function KeepClientIP(service: Service): Option<bool> {
    if FORWARDED_FOR_KEY !in service.annotations then Some(false)
    else
      var value := service.annotations[FORWARDED_FOR_KEY];
      if value == "true" then Some(true) else if value == "false" then Some(false) else None
  }

  /** Absent means no; anything but "true" and "false" is refused. */
  lemma KeepClientIPMeaning(service: Service)
    ensures KeepClientIP(service) == Some(true) <==>
              FORWARDED_FOR_KEY in service.annotations && service.annotations[FORWARDED_FOR_KEY] == "true"
    ensures KeepClientIP(service).None? <==>
              FORWARDED_FOR_KEY in service.annotations && service.annotations[FORWARDED_FOR_KEY] !in {"true", "false"}
  {
  }

  /** What a service port asks of its load balancer, in terms of the service and the nodes alone. */
  ghost predicate Fulfils(r: Record, service: Service, p: ServicePort, nodes: seq<Node>) {
    && r.lb.port == p.port && r.lb.status !in {Deleted, PendingDelete}
    && r.lb.protocol == (if FORWARDED_FOR_KEY in service.annotations && service.annotations[FORWARDED_FOR_KEY] == "true"
                         then "HTTP" else if p.protocol == "TCP" then "TCP_CLIENT_FIRST" else p.protocol)
    && OfNodes(Keys(r.members), nodes, p.nodePort)
  }

  function ServiceLBName(cluster: string, service: Service): string {
    LoadBalancerName(Identity(cluster, service.namespace, service.name))
  }

  ghost function GoalOf(cluster: string, service: Service, parse: string -> Option<string>, nodes: seq<Node>): Goal {
    Goal(ServiceLBName(cluster, service), KeepClientIP(service) == Some(true),
         set s | s in RangeSpecs(service) :: Canonical(parse, s), NodeOrder(nodes))
  }

  /** What EnsureLoadBalancer demands of a service before it touches the cloud. */
  ghost predicate Acceptable(service: Service, parse: string -> Option<string>, nodes: seq<Node>) {
    && nodes != [] && service.ports != []
    && (forall p :: p in service.ports ==> p.protocol == "TCP" || p.protocol == "UDP")
    && (forall s :: s in RangeSpecs(service) ==> parse(TrimSpace(s)).Some?)
    && KeepClientIP(service).Some?
  }

  /** Removes the item with the ID of `rm` by overwriting it with the last one. */
  method PopLB(lbs: Slice<LoadBalancer>, rm: LoadBalancer) returns (rest: Slice<LoadBalancer>)
    requires lbs.Valid() && DistinctIds(lbs.View())
    modifies lbs.arr
    ensures rest.Valid() && rest.arr == lbs.arr && DistinctIds(rest.View())
    ensures rest.View() == Without(old(lbs.View()), rm.id)
    ensures forall y :: y in rest.View() <==> y in old(lbs.View()) && y.id != rm.id
  {
    ghost var view := lbs.View();
    WithoutMeaning(view, rm.id);
    for i := 0 to lbs.len
      invariant lbs.View() == view
      invariant IdIndex(view, rm.id) == i + IdIndex(view[i..], rm.id)
    {
      assert lbs.arr[i] == view[i] && view[i..][1..] == view[i + 1..];
      if lbs.arr[i].id == rm.id {
        rest := DropAt(lbs, i);
        return rest;
      }
    }
    return lbs;
  }

  ghost function IngressOf(w: World, id: nat): string {
    if id in w.lbs && |w.lbs[id].lb.vips| > 0 then w.lbs[id].lb.vips[0].address else ""
  }

  /**
   * What one reconciliation of a service may do and must achieve, wherever it fails. `served` are the load balancers
   * of the ports that were served, in the order of the ports.
   */
  ghost predicate Reconciled(w0: World, t0: Trace, listed: seq<LoadBalancer>, w: World, t: Trace,
                             ports: seq<ServicePort>, g: Goal, served: seq<nat>, r: Result<string>) {
    // other names are untouched, and virtual IPs that were shared still are
    && Framed(w0, w, g.name) && SharingKept(w0, w)
    // each load balancer is as it was or as an interrupted call for a port on its number leaves it
    && Touched(w0, w, ports, g)
    // each port takes the first load balancer left on its number, or gets a new one
    && Matches(w0, listed, ports, served)
    && (forall s :: s in served ==> LiveAt(w, s))
    // nothing is deleted before all ports are served, and nothing else is written after that
    && RemovesLast(t0, t)
    && (if |served| < |ports|
        then r.Fail? && LiveNamed(w0, g.name) <= LiveNamed(w, g.name) && Adds(t0, t, SERVING)
        else NoDup(served) && ServedAll(w0, w, served, ports, g))
    // a success writes nothing exactly when each port in turn finds its load balancer in place
    && (InOrder(w0, listed, ports, g) ==> Adds(t0, t, {Poll}))
    && (r.Success? && Adds(t0, t, {Poll}) ==> InOrder(w0, listed, ports, g))
    && (r.Success? ==>
          && LiveNamed(w, g.name) == ToSet(served) && NoChurn(w0, w, g.name)
          && (ports != [] ==> AllAddressed(g.nodes) && r.value == IngressOf(w, served[|served| - 1])))
  }

  class CloudLb {
    const lb: Cloud
    const parse: string -> Option<string>

    constructor (lb0: Cloud, parse0: string -> Option<string>)
      ensures lb == lb0 && parse == parse0
    {
      lb, parse := lb0, parse0;
    }

    /** Deletes one load balancer and waits until it is gone. */
    method DeleteAndWait(id: nat) returns (err: Option<Error>)
      requires lb.Valid() && ActiveProtocol(lb.trace)
      modifies lb`w, lb`trace, lb`faults
      ensures lb.Valid() && ActiveProtocol(lb.trace) && Fading(old(lb.w), lb.w, id)
      ensures Adds(Then(old(lb.trace), Removed(id)), lb.trace, REMOVING)
      ensures Accounted(err.None?, old(lb.faults), old(lb.trace), lb.faults, lb.trace)
      ensures err.None? ==> !LiveAt(lb.w, id)
    {
      ghost var w0 := lb.w;
      var e := lb.DeleteBalancer(id);
      if e.Some? && e.value != NotFound {
        return Some(ErrApi(e.value));
      }
      ghost var w1, t := lb.w, lb.trace;
      err := WaitLoadbalancerDeleted(lb, id);
      PollsWriteNothing(t, lb.trace, id);
      AddsMore(t, lb.trace, {Poll}, REMOVING);
      WaitAccounted(lb.faults, old(lb.trace), t, lb.trace, id, err, REMOVING);
      OnlyAtTransitive(w0, w1, lb.w, id);
    }

    /** Deletes load balancers one by one, waiting for each to be gone. */
    method DeleteLoadBalancers(lbs: seq<LoadBalancer>) returns (err: Option<Error>)
      requires lb.Valid() && ActiveProtocol(lb.trace)
      modifies lb`w, lb`trace, lb`faults
      ensures lb.Valid() && ActiveProtocol(lb.trace)
      ensures Reaped(old(lb.w), lb.w, Ids(lbs))
      ensures Adds(old(lb.trace), lb.trace, REMOVING)
      ensures Accounted(err.None?, old(lb.faults), old(lb.trace), lb.faults, lb.trace)
      ensures if lbs == [] then lb.trace == old(lb.trace) else !Adds(old(lb.trace), lb.trace, {Poll})
      ensures err.None? ==> forall i :: i in Ids(lbs) ==> !LiveAt(lb.w, i)
    {
      hide Reaped, Cloud.Valid, Fading;
      ghost var w0, t0 := lb.w, lb.trace;
      ReapedNone(w0, Ids(lbs));
      for i := 0 to |lbs|
        invariant lb.Valid() && ActiveProtocol(lb.trace)
        invariant Reaped(w0, lb.w, Ids(lbs))
        invariant lb.faults == old(lb.faults) && Adds(t0, lb.trace, REMOVING)
        invariant if i == 0 then lb.trace == t0 else !Adds(t0, lb.trace, {Poll})
        invariant forall j :: 0 <= j < i ==> !LiveAt(lb.w, lbs[j].id)
      {
        ghost var w1, t1 := lb.w, lb.trace;
        err := DeleteAndWait(lbs[i].id);
        RemovalAdded(t0, t1, lb.trace, lbs[i].id);
        AccountedLater(old(lb.faults), t0, t1, lb.faults, lb.trace, REMOVING, err.None?);
        ReapedMore(w0, w1, lb.w, Ids(lbs), lbs[i].id);
        FadingDead(w1, lb.w, lbs[i].id);
        if err.Some? {
          return err;
        }
      }
      return None;
    }

    /** Brings access list and protocol of an existing load balancer in line. */
    method Retune(x: LoadBalancer, port: ServicePort, keepClientIP: bool, access: seq<NetworkItem>)
      returns (err: Option<Error>)
      requires lb.Valid() && ActiveProtocol(lb.trace)
      requires LiveAt(lb.w, x.id) && lb.w.lbs[x.id].lb == x
      modifies lb`w, lb`trace, lb`faults
      ensures lb.Valid() && ActiveProtocol(lb.trace) && Tuned(old(lb.w), lb.w, x.id)
      ensures MembersAt(lb.w, x.id) == MembersAt(old(lb.w), x.id)
      ensures Adds(old(lb.trace), lb.trace, {BalancerWrite})
      ensures Rewritten(old(lb.w), lb.w, x.id, access, err.None?)
      ensures lb.faults == old(lb.faults) + if err.None? then 0 else 1
      ensures SameAccess(AccessAt(old(lb.w), x.id), access)
              && x.protocol == ToLBProtocol(port.protocol, keepClientIP) ==>
                lb.w == old(lb.w) && lb.trace == old(lb.trace)
      ensures err.None? && lb.trace == old(lb.trace) ==>
                SameAccess(AccessAt(old(lb.w), x.id), access) && x.protocol == ToLBProtocol(port.protocol, keepClientIP)
      ensures err.None? ==> lb.w.lbs[x.id].lb.protocol == ToLBProtocol(port.protocol, keepClientIP)
    {
      hide SameAccess;
      ghost var w0, t0 := lb.w, lb.trace;
      err := EnsureLoadBalancerAccesslists(lb, x.id, access);
      AddsLonger(t0, lb.trace, {BalancerWrite});
      if err.Some? {
        return err;
      }
      ghost var w1 := lb.w;
      var newLbProtocol := ToLBProtocol(port.protocol, keepClientIP);
      if x.protocol != newLbProtocol {
        var e := lb.UpdateProtocol(x.id, newLbProtocol);
        TunedTransitive(w0, w1, lb.w, x.id);
        if e.Some? {
          return Some(ErrApi(e.value));
        }
      }
    }

    /** Serves one port by a load balancer already listed: access list, protocol, and out of the list. */
    method AdoptExisting(x: LoadBalancer, port: ServicePort, vips: seq<VipOption>, keepClientIP: bool,
                         access: seq<NetworkItem>, lbs: Slice<LoadBalancer>, ghost w0: World, ghost served: seq<nat>,
                         ghost ports: seq<ServicePort>, ghost g: Goal)
      returns (err: Option<Error>, rest: Slice<LoadBalancer>)
      requires lb.Valid() && ActiveProtocol(lb.trace) && Touched(w0, lb.w, ports, g)
      requires lbs.Valid() && Progress(w0, lb.w, g.name, lbs.View(), served) && OptionsShare(lb.w, g.name, vips)
      requires x in lbs.View() && x.port == port.port && keepClientIP == g.keepClientIP
      requires Desired(access, g.ranges)
      modifies lb`w, lb`trace, lb`faults, lbs.arr
      ensures lb.Valid() && ActiveProtocol(lb.trace) && Safe(w0, lb.w, g.name) && Touched(w0, lb.w, ports, g)
      ensures LiveNamed(old(lb.w), g.name) <= LiveNamed(lb.w, g.name)
      ensures Adds(old(lb.trace), lb.trace, {BalancerWrite})
      ensures lb.faults == old(lb.faults) + if err.None? then 0 else 1
      ensures Agrees(old(lb.w), x.id, port, g) ==> lb.w == old(lb.w) && lb.trace == old(lb.trace)
      ensures err.None? && lb.trace == old(lb.trace) ==> Agrees(old(lb.w), x.id, port, g)
      ensures err.None? ==>
                && rest.Valid() && rest.arr == lbs.arr && rest.View() == Without(old(lbs.View()), x.id)
                && Progress(w0, lb.w, g.name, rest.View(), served + [x.id]) && OptionsShare(lb.w, g.name, vips)
                && Prepared(w0, lb.w, x.id, port, g) && x.vips == lb.w.lbs[x.id].lb.vips
                && SameExcept(old(lb.w), lb.w, x.id) && x.id in w0.lbs
    {
      hide Progress, OptionsShare, Safe, Touched, Cloud.Valid, AccessMatches, Desired, Agrees, Prepared, SameExcept,
           Without, SameAccess, Tuned, Rewritten, LiveNamed, ActiveProtocol;
      ghost var w1, view := lb.w, lbs.View();
      ListedLive(w0, w1, g.name, view, served, x);
      ListedAgrees(w1, x, port, access, g);
      err := Retune(x, port, keepClientIP, access);
      AdoptedSafe(w0, w1, lb.w, view, served, x, access, err.None?, ports, g);
      rest := lbs;
      if err.None? {
        RetunedPrepared(w0, w1, lb.w, x, port, access, g);
        ProgressIds(w0, w1, g.name, view, served);
        rest := PopLB(lbs, x);
        Adopted(w0, w1, lb.w, g.name, view, served, x, rest.View(), vips);
      }
    }

    /** Waits for ACTIVE, then brings the members in line. */
    method FinishPort(id: nat, port: ServicePort, nodes: array<Node>) returns (err: Option<Error>)
      requires lb.Valid() && ActiveProtocol(lb.trace) && ProperNodes(nodes[..])
      modifies lb`w, lb`trace, lb`faults, nodes
      ensures lb.Valid() && ActiveProtocol(lb.trace) && NodesOnly(old(lb.w), lb.w, id)
      ensures nodes[..] == old(nodes[..]) || nodes[..] == NodeOrder(old(nodes[..]))
      ensures NodesStep(Keys(MembersAt(old(lb.w), id)), Keys(MembersAt(lb.w, id)), NodeOrder(old(nodes[..])),
                        port.nodePort)
      ensures Adds(old(lb.trace), lb.trace, {Poll, NodeWrite})
      ensures err.None? || (LiveAt(old(lb.w), id) && AllAddressed(NodeOrder(old(nodes[..])))) ==>
                Accounted(err.None?, old(lb.faults), old(lb.trace), lb.faults, lb.trace)
      ensures LiveAt(old(lb.w), id)
              && Writes(Keys(MembersAt(old(lb.w), id)), Wanted(NodeOrder(old(nodes[..])), port.nodePort)) == 0 ==>
                Adds(old(lb.trace), lb.trace, {Poll})
      ensures err.None? && Adds(old(lb.trace), lb.trace, {Poll}) ==>
                Writes(Keys(MembersAt(old(lb.w), id)), Wanted(NodeOrder(old(nodes[..])), port.nodePort)) == 0
      ensures err.None? ==>
                && nodes[..] == NodeOrder(old(nodes[..])) && AllAddressed(nodes[..]) && LiveAt(lb.w, id)
                && Keys(MembersAt(lb.w, id)) ==
                   FinalKeys(Keys(MembersAt(old(lb.w), id)), Wanted(nodes[..], port.nodePort))
    {
      hide ProperNodes, Cloud.Valid, FinalKeys, Partial, Writes, NodeOrder, AllAddressed, Wanted, WaitedActive,
           Accounted;
      ghost var w0, t0, ns := lb.w, lb.trace, nodes[..];
      OrderAddressed(ns);
      err := WaitLoadbalancerActiveStatus(lb, id);
      PollsWriteNothing(t0, lb.trace, id);
      ghost var w1, t1 := lb.w, lb.trace;
      SettledMembers(w0, w1, id);
      AddsNone(t0, {Poll});
      WaitAccounted(lb.faults, t0, t0, t1, id, err, {Poll});
      AddsMore(t0, t1, {Poll}, {Poll, NodeWrite});
      if err.Some? {
        return err;
      }
      err := EnsureLoadBalancerNodes(lb, id, port.nodePort, nodes);
      if err.None? || (LiveAt(w0, id) && AllAddressed(ns)) {
        AccountedLater(old(lb.faults), t0, t1, lb.faults, lb.trace, {Poll}, err.None?);
      }
      NodesOnlyTransitive(w0, w1, lb.w, id);
      AddsThen(t0, t1, lb.trace, {Poll}, {Poll, NodeWrite}, {Poll, NodeWrite});
      if Adds(t1, lb.trace, {Poll}) {
        AddsThen(t0, t1, lb.trace, {Poll}, {Poll}, {Poll});
      }
      if Adds(t0, lb.trace, {Poll}) {
        OnlyPollsAdded(t0, lb.trace);
      }
    }

    /** Creates the load balancer of one port; even a failed creation keeps what holds of all of the name. */
    method CreateLoadBalancer(name: string, vips: seq<VipOption>, port: ServicePort, keepClientIP: bool,
                              access: seq<NetworkItem>, ghost w0: World, ghost rest: seq<LoadBalancer>,
                              ghost served: seq<nat>, ghost ports: seq<ServicePort>, ghost g: Goal)
      returns (r: Reply<LoadBalancer>)
      requires lb.Valid() && ActiveProtocol(lb.trace) && Touched(w0, lb.w, ports, g)
      requires Progress(w0, lb.w, name, rest, served) && OptionsShare(lb.w, name, vips)
      requires keepClientIP == g.keepClientIP && name == g.name && Desired(access, g.ranges)
      modifies lb`w, lb`trace, lb`faults
      ensures lb.Valid() && ActiveProtocol(lb.trace) && Safe(w0, lb.w, name) && Touched(w0, lb.w, ports, g)
      ensures LiveNamed(old(lb.w), name) <= LiveNamed(lb.w, name)
      ensures Adds(old(lb.trace), lb.trace, {BalancerWrite}) && lb.trace != old(lb.trace)
      ensures lb.faults == old(lb.faults) + if r.Ok? then 0 else 1
      ensures r.Ok? ==>
                && r.value.id !in old(lb.w).lbs && r.value.id !in w0.lbs
                && r.value.id in lb.w.lbs && r.value == lb.w.lbs[r.value.id].lb
                && SameExcept(old(lb.w), lb.w, r.value.id)
                && Progress(w0, lb.w, name, rest, served + [r.value.id])
                && Prepared(w0, lb.w, r.value.id, port, g)
                && OptionsShare(lb.w, name, CloneVips(r.value))
    {
      hide Progress, OptionsShare, Touched, Desired, Prepared, LiveNamed, AccessMatches, VipsSharedOf, KnownVips;
      OptionsKnown(lb.w, name, vips);
      ghost var w1 := lb.w;
      var o := CreateOptions(name, ToLBProtocol(port.protocol, keepClientIP), port.port, vips, access);
      ProgressSafe(w0, w1, name, rest, served);
      ghost var id;
      r, id := lb.CreateBalancer(o);
      assert Length(lb.trace) == Length(old(lb.trace)) + 1;
      if r.Ok? || lb.w != w1 {
        CreateLive(w1, lb.w, id, o);
        CreateProgress(w0, w1, lb.w, rest, served, id, o);
        CreateVips(w1, lb.w, id, o);
        CreatedPrepared(w0, w1, lb.w, id, o, port, g);
        TouchedCreated(w0, w1, lb.w, id, o, ports, g);
        ProgressSafe(w0, lb.w, name, rest, served + [id]);
      }
    }

    /** Finds or creates the load balancer of one port. */
    method AcquirePort(port: ServicePort, vips: seq<VipOption>, keepClientIP: bool, access: seq<NetworkItem>,
                       lbs: Slice<LoadBalancer>, ghost w0: World, ghost served: seq<nat>, ghost ports: seq<ServicePort>,
                       ghost g: Goal, name: string)
      returns (r: Result<LoadBalancer>, rest: Slice<LoadBalancer>, nextVips: seq<VipOption>)
      requires lb.Valid() && ActiveProtocol(lb.trace) && Touched(w0, lb.w, ports, g)
      requires lbs.Valid() && Progress(w0, lb.w, name, lbs.View(), served) && OptionsShare(lb.w, name, vips)
      requires keepClientIP == g.keepClientIP && name == g.name && Desired(access, g.ranges)
      modifies lb`w, lb`trace, lb`faults, lbs.arr
      ensures lb.Valid() && ActiveProtocol(lb.trace) && Safe(w0, lb.w, name) && Touched(w0, lb.w, ports, g)
      ensures LiveNamed(old(lb.w), name) <= LiveNamed(lb.w, name)
      ensures Adds(old(lb.trace), lb.trace, {BalancerWrite})
      ensures lb.faults == old(lb.faults) + if r.Success? then 0 else 1
      ensures FindsAgreeing(old(lb.w), old(lbs.View()), port, g) ==> lb.w == old(lb.w) && lb.trace == old(lb.trace)
      ensures r.Success? && lb.trace == old(lb.trace) ==> FindsAgreeing(old(lb.w), old(lbs.View()), port, g)
      ensures r.Success? ==>
                var id := r.value.id;
                && rest.Valid() && rest.arr == lbs.arr && Takes(w0, old(lbs.View()), rest.View(), port.port, id)
                && Progress(w0, lb.w, name, rest.View(), served + [id]) && OptionsShare(lb.w, name, nextVips)
                && Prepared(w0, lb.w, id, port, g) && r.value.vips == lb.w.lbs[id].lb.vips && |r.value.vips| > 0
                && SameExcept(old(lb.w), lb.w, id)
    {
      hide Progress, OptionsShare, Safe, Touched, AccessMatches, Desired, Agrees, Prepared, SameExcept, Without,
           LiveNamed, ActiveProtocol, VipsSharedOf;
      nextVips, rest := vips, lbs;
      var found := GetLoadBalancerByPort(lbs.arr[..lbs.len], port);
      FirstOnPortMeaning(lbs.arr[..lbs.len], port.port);
      if found.None? {
        var created := CreateLoadBalancer(name, vips, port, keepClientIP, access, w0, lbs.View(), served, ports, g);
        if created.Err? {
          return Fail(ErrApi(created.error)), rest, nextVips;
        }
        assert ValidRecord(created.value.id, lb.w.lbs[created.value.id], lb.w.vips);
        return Success(created.value), rest, CloneVips(created.value);
      }
      var err;
      err, rest := AdoptExisting(found.value, port, vips, keepClientIP, access, lbs, w0, served, ports, g);
      if err.Some? {
        return Fail(err.value), rest, nextVips;
      }
      PreparedThere(w0, lb.w, found.value.id, port, g);
      assert ValidRecord(found.value.id, lb.w.lbs[found.value.id], lb.w.vips);
      return Success(found.value), rest, nextVips;
    }

    /** One round of the loop over the ports. */
    method ServePort(port: ServicePort, vips: seq<VipOption>, keepClientIP: bool, access: seq<NetworkItem>,
                     lbs: Slice<LoadBalancer>, nodes: array<Node>, ghost w0: World, ghost served: seq<nat>,
                     ghost ports: seq<ServicePort>, ghost g: Goal, name: string)
      returns (r: Result<LoadBalancer>, rest: Slice<LoadBalancer>, nextVips: seq<VipOption>)
      requires lb.Valid() && ActiveProtocol(lb.trace) && ProperNodes(nodes[..]) && NodeOrder(nodes[..]) == g.nodes
      requires lbs.Valid() && Progress(w0, lb.w, name, lbs.View(), served) && OptionsShare(lb.w, name, vips)
      requires keepClientIP == g.keepClientIP && name == g.name && Desired(access, g.ranges)
      requires Touched(w0, lb.w, ports, g) && port in ports
      modifies lb`w, lb`trace, lb`faults, lbs.arr, nodes
      ensures lb.Valid() && ActiveProtocol(lb.trace) && Safe(w0, lb.w, name) && Touched(w0, lb.w, ports, g)
      ensures LiveNamed(old(lb.w), name) <= LiveNamed(lb.w, name)
      ensures nodes[..] == old(nodes[..]) || nodes[..] == NodeOrder(old(nodes[..]))
      ensures Adds(old(lb.trace), lb.trace, SERVING)
      ensures r.Success? || AllAddressed(g.nodes) ==>
                Accounted(r.Success?, old(lb.faults), old(lb.trace), lb.faults, lb.trace)
      ensures FindsInPlace(old(lb.w), old(lbs.View()), port, g) ==> Adds(old(lb.trace), lb.trace, {Poll})
      ensures r.Success? && Adds(old(lb.trace), lb.trace, {Poll}) ==> FindsInPlace(old(lb.w), old(lbs.View()), port, g)
      ensures r.Success? ==>
                var id := r.value.id;
                && rest.Valid() && rest.arr == lbs.arr && Takes(w0, old(lbs.View()), rest.View(), port.port, id)
                && Progress(w0, lb.w, name, rest.View(), served + [id]) && OptionsShare(lb.w, name, nextVips)
                && Served(w0, lb.w, id, port, g) && SameExcept(old(lb.w), lb.w, id) && AllAddressed(g.nodes)
                && |r.value.vips| > 0 && r.value.vips[0].address == IngressOf(lb.w, id)
    {
      hide Progress, OptionsShare, Served, Safe, Touched, Cloud.Valid, Desired, AccessMatches, SameExcept, FinalKeys,
           Takes, NodesStep, FindsInPlace, FindsAgreeing, NodeOrder, ProperNodes, AllAddressed, Writes, Wanted, Stuck;
      ghost var w1, t1, lbs0 := lb.w, lb.trace, lbs.View();
      r, rest, nextVips := AcquirePort(port, vips, keepClientIP, access, lbs, w0, served, ports, g, name);
      AddsMore(t1, lb.trace, {BalancerWrite}, SERVING);
      InPlaceAgrees(w1, lbs0, port, g);
      if r.Fail? {
        FaultAccounted(old(lb.faults), t1, lb.faults, lb.trace);
      }
      if r.Fail? {
        return;
      }
      ghost var w2, t2 := lb.w, lb.trace;
      PreparedThere(w0, w2, r.value.id, port, g);
      var err := FinishPort(r.value.id, port, nodes);
      AddsThen(t1, t2, lb.trace, {BalancerWrite}, {Poll, NodeWrite}, SERVING);
      if err.None? || AllAddressed(g.nodes) {
        AccountedLater(old(lb.faults), t1, t2, lb.faults, lb.trace, {BalancerWrite}, err.None?);
      }
      FoundOrNot(w0, w1, w2, t1, t2, lb.trace, lbs0, rest.View(), r.value.id, port, g, err.None?);
      TunedLive(w2, lb.w, r.value.id, name);
      TunedProgress(w0, w2, lb.w, name, rest.View(), served + [r.value.id], r.value.id);
      ProgressSafe(w0, lb.w, name, rest.View(), served + [r.value.id]);
      TouchedFinished(w0, w2, lb.w, r.value.id, port, ports, g);
      if err.Some? {
        return Fail(err.value), rest, nextVips;
      }
      TunedOptions(w2, lb.w, r.value.id, name, nextVips);
      PreparedServed(w0, w2, lb.w, r.value.id, port, g);
      SameExceptTransitive(w1, w2, lb.w, r.value.id);
    }

    /** The loop over the ports: each gets a load balancer of its own, out of the listed ones or new. */
    method ServePorts(ports: seq<ServicePort>, vips0: seq<VipOption>, keepClientIP: bool, access: seq<NetworkItem>,
                      lbs: Slice<LoadBalancer>, nodes: array<Node>, ghost g: Goal, name: string)
      returns (r: Result<string>, rest: Slice<LoadBalancer>, ghost served: seq<nat>)
      requires lb.Valid() && ActiveProtocol(lb.trace) && ProperNodes(nodes[..]) && NodeOrder(nodes[..]) == g.nodes
      requires lbs.Valid() && Progress(lb.w, lb.w, name, lbs.View(), []) && OptionsShare(lb.w, name, vips0)
      requires keepClientIP == g.keepClientIP && name == g.name && Desired(access, g.ranges)
      modifies lb`w, lb`trace, lb`faults, lbs.arr, nodes
      ensures lb.Valid() && ActiveProtocol(lb.trace)
      ensures Safe(old(lb.w), lb.w, name) && Touched(old(lb.w), lb.w, ports, g)
      ensures nodes[..] == old(nodes[..]) || nodes[..] == NodeOrder(old(nodes[..]))
      ensures Adds(old(lb.trace), lb.trace, SERVING)
      ensures |served| <= |ports| && (r.Fail? ==> |served| < |ports|)
      ensures r.Success? || AllAddressed(g.nodes) ==>
                Accounted(r.Success?, old(lb.faults), old(lb.trace), lb.faults, lb.trace)
      ensures Matches(old(lb.w), old(lbs.View()), ports, served)
      ensures forall s :: s in served ==> LiveAt(lb.w, s)
      ensures FoundInPlace(old(lb.w), old(lbs.View()), ports, g, |ports|) ==> Adds(old(lb.trace), lb.trace, {Poll})
      ensures r.Success? && Adds(old(lb.trace), lb.trace, {Poll}) ==>
                FoundInPlace(old(lb.w), old(lbs.View()), ports, g, |ports|)
      ensures r.Success? ==>
                && rest.Valid() && rest.arr == lbs.arr && rest.View() == Left(old(lbs.View()), ports)
                && Progress(old(lb.w), lb.w, name, rest.View(), served) && ServedAll(old(lb.w), lb.w, served, ports, g)
                && Sparing(old(lb.w), lb.w, rest.View(), served)
                && (ports != [] ==> AllAddressed(g.nodes) && r.value == IngressOf(lb.w, served[|served| - 1]))
    {
      hide Progress, OptionsShare, ServedAll, Served, Sparing, Safe, Touched, Cloud.Valid, Desired, AccessMatches,
           SameExcept, IngressOf, NodeOrder, ProperNodes, AllAddressed, Takes, Matches, Left, FoundInPlace,
           FindsInPlace, ActiveProtocol, Stuck;
      ghost var w0, t0, lbs0, ns0 := lb.w, lb.trace, lbs.View(), nodes[..];
      var vips, ingress := vips0, "";
      rest, served := lbs, [];
      ServedNone(w0, lbs0, ports, g);
      for k := 0 to |ports|
        invariant lb.Valid() && ActiveProtocol(lb.trace) && Adds(t0, lb.trace, SERVING) && lb.faults == old(lb.faults)
        invariant rest.Valid() && rest.arr == lbs.arr && rest.View() == Left(lbs0, ports[..k])
        invariant ProperNodes(nodes[..]) && NodeOrder(nodes[..]) == g.nodes
        invariant nodes[..] == ns0 || nodes[..] == g.nodes
        invariant Progress(w0, lb.w, name, rest.View(), served) && OptionsShare(lb.w, name, vips)
        invariant Touched(w0, lb.w, ports, g) && Matches(w0, lbs0, ports, served)
        invariant |served| == k && ServedAll(w0, lb.w, served, ports[..k], g)
        invariant Sparing(w0, lb.w, rest.View(), served)
        invariant FoundInPlace(w0, lbs0, ports, g, k) <==> Adds(t0, lb.trace, {Poll})
        invariant k > 0 ==> AllAddressed(g.nodes) && ingress == IngressOf(lb.w, served[k - 1])
      {
        ghost var w1, t1, ns, lbs1 := lb.w, lb.trace, nodes[..], rest.View();
        assert ports[k] in ports && ports[..k + 1] == ports[..k] + [ports[k]];
        var one, nextVips;
        one, rest, nextVips := ServePort(ports[k], vips, keepClientIP, access, rest, nodes, w0, served, ports, g, name);
        NodesKept(ns, nodes[..]);
        ServedAlive(w0, w1, lb.w, name, lbs1, served);
        if one.Success? || AllAddressed(g.nodes) {
          AccountedLater(old(lb.faults), t0, t1, lb.faults, lb.trace, SERVING, one.Success?);
        }
        FoundOnwards(w0, w1, name, lbs0, lbs1, served, ports, k, g, t0, t1, lb.trace, one.Success?);
        if one.Fail? {
          return Fail(one.error), rest, served;
        }
        SparingNext(w0, w1, lb.w, name, lbs1, served, rest.View(), one.value.id, ports[k], g);
        ServedKept(w0, w1, lb.w, rest.View(), served, ports[..k], ports[k], one.value.id, g);
        MatchesNext(w0, lbs0, ports, served, rest.View(), one.value.id);
        vips := nextVips;
        served := served + [one.value.id];
        ingress := one.value.vips[0].address;
      }
      assert ports[..|ports|] == ports;
      ProgressSafe(w0, lb.w, name, rest.View(), served);
      ServedAlive(w0, lb.w, lb.w, name, rest.View(), served);
      return Success(ingress), rest, served;
    }

    /** The virtual IPs for new load balancers: those of the first listed one, else a new public one. */
    method InitialVips(lbs: seq<LoadBalancer>, ghost w: World, name: string) returns (vips: seq<VipOption>)
      requires Lists(w, name, lbs) && ValidWorld(w)
      ensures OptionsShare(w, name, vips)
      ensures vips == if lbs == [] then [OfType("PUBLIC")] else CloneVips(lbs[0])
    {
      if |lbs| > 0 {
        CloneKnown(w, lbs[0].id);
        vips := CloneVips(lbs[0]);
        assert lbs[0].id in LiveNamed(w, name) by { assert lbs[0].id in Ids(lbs); }
      } else {
        vips := [OfType("PUBLIC")];
        assert LiveNamed(w, name) == {};
      }
    }

    /** Creates and adjusts load balancers until they are exactly those of the service's ports. */
    method EnsureLoadBalancer(cluster: string, service: Service, nodes: array<Node>)
      returns (r: Result<string>, ghost served: seq<nat>)
      requires lb.Valid() && ActiveProtocol(lb.trace) && ProperNodes(nodes[..])
      modifies lb, nodes
      ensures lb.Valid() && ActiveProtocol(lb.trace)
      ensures nodes[..] == old(nodes[..]) || nodes[..] == NodeOrder(old(nodes[..]))
      ensures !Acceptable(service, parse, old(nodes[..])) ==> r.Fail? && lb.w == old(lb.w) && lb.trace == old(lb.trace)
      ensures r.Success? || (Acceptable(service, parse, old(nodes[..])) && AllAddressed(old(nodes[..]))) ==>
                Accounted(r.Success?, old(lb.faults), old(lb.trace), lb.faults, lb.trace)
      ensures Reconciled(old(lb.w), old(lb.trace), Valids(Collection(old(lb.w)), ServiceLBName(cluster, service)),
                         lb.w, lb.trace, service.ports, GoalOf(cluster, service, parse, old(nodes[..])), served, r)
      ensures r.Success? ==>
                && |served| == |service.ports| && NoDup(served)
                && forall k :: 0 <= k < |served| ==>
                     && served[k] in lb.w.lbs
                     && Fulfils(lb.w.lbs[served[k]], service, service.ports[k], old(nodes[..]))
    {
      hide Reconciled, ProperNodes, ValidRecord, ActiveProtocol, NodeOrder, Valids, AllAddressed, Accounted;
      served := [];
      OrderAddressed(nodes[..]);
      NothingReconciled(lb.w, lb.trace, Valids(Collection(lb.w), ServiceLBName(cluster, service)), service.ports,
                        GoalOf(cluster, service, parse, nodes[..]));
      if nodes.Length == 0 {
        return Fail(ErrInvalid), served;
      }
      assert nodes[0] in nodes[..];
      var ports := service.ports;
      if |ports| == 0 {
        return Fail(ErrInvalid), served;
      }
      for i := 0 to |ports|
        invariant forall j :: 0 <= j < i ==> ports[j].protocol == "TCP" || ports[j].protocol == "UDP"
      {
        if ports[i].protocol != "TCP" && ports[i].protocol != "UDP" {
          assert ports[i] in service.ports;
          return Fail(ErrInvalid), served;
        }
      }
      var sourceRanges := GetLoadBalancerSourceRanges(service, parse);
      if sourceRanges.Fail? {
        return Fail(sourceRanges.error), served;
      }
      ghost var w0, t0, g := lb.w, lb.trace, GoalOf(cluster, service, parse, nodes[..]);
      r, served := Reconcile(cluster, service, nodes, sourceRanges.value);
      if r.Success? {
        AllFulfilled(w0, t0, Valids(Collection(w0), g.name), lb.w, lb.trace, service, g, old(nodes[..]), served, r);
      }
    }

    /** The part that talks to the cloud: list, serve every port, then delete what is left over. */
    method Reconcile(cluster: string, service: Service, nodes: array<Node>, sourceRanges: set<string>)
      returns (r: Result<string>, ghost served: seq<nat>)
      requires lb.Valid() && ActiveProtocol(lb.trace) && ProperNodes(nodes[..])
      requires sourceRanges == GoalOf(cluster, service, parse, nodes[..]).ranges
      modifies lb, nodes
      ensures lb.Valid() && ActiveProtocol(lb.trace)
      ensures nodes[..] == old(nodes[..]) || nodes[..] == NodeOrder(old(nodes[..]))
      ensures KeepClientIP(service).None? ==> r.Fail? && lb.w == old(lb.w) && lb.trace == old(lb.trace)
      ensures r.Success? || (KeepClientIP(service).Some? && AllAddressed(NodeOrder(old(nodes[..])))) ==>
                Accounted(r.Success?, old(lb.faults), old(lb.trace), lb.faults, lb.trace)
      ensures Reconciled(old(lb.w), old(lb.trace), Valids(Collection(old(lb.w)), ServiceLBName(cluster, service)),
                         lb.w, lb.trace, service.ports, GoalOf(cluster, service, parse, old(nodes[..])), served, r)
    {
      hide Reconciled, OptionsShare, Lists, ProperNodes, ValidRecord, Desired, NodeOrder, ActiveProtocol, Valids;
      served := [];
      ghost var g := GoalOf(cluster, service, parse, nodes[..]);
      var access := BuildAccess(sourceRanges);
      var name := ServiceLBName(cluster, service);
      NothingReconciled(lb.w, lb.trace, Valids(Collection(lb.w), name), service.ports, g);
      var listed := GetLoadBalancersByName(lb, name);
      if listed.Fail? {
        FaultAccounted(old(lb.faults), lb.trace, lb.faults, lb.trace);
        return Fail(listed.error), served;
      }
      var vips := InitialVips(listed.value, lb.w, name);
      var keepClientIP := KeepClientIP(service);
      if keepClientIP.None? {
        return Fail(ErrInvalid), served;
      }
      r, served := Converge(listed.value, service.ports, vips, keepClientIP.value, access, nodes, g, name);
    }

    /** Serves every port, then deletes the load balancers that no port took. */
    method Converge(listed: seq<LoadBalancer>, ports: seq<ServicePort>, vips: seq<VipOption>, keepClientIP: bool,
                    access: seq<NetworkItem>, nodes: array<Node>, ghost g: Goal, name: string)
      returns (r: Result<string>, ghost served: seq<nat>)
      requires lb.Valid() && ActiveProtocol(lb.trace) && ProperNodes(nodes[..]) && NodeOrder(nodes[..]) == g.nodes
      requires Lists(lb.w, name, listed) && OptionsShare(lb.w, name, vips)
      requires keepClientIP == g.keepClientIP && name == g.name && Desired(access, g.ranges)
      modifies lb`w, lb`trace, lb`faults, nodes
      ensures lb.Valid() && ActiveProtocol(lb.trace)
      ensures nodes[..] == old(nodes[..]) || nodes[..] == NodeOrder(old(nodes[..]))
      ensures r.Success? || AllAddressed(g.nodes) ==>
                Accounted(r.Success?, old(lb.faults), old(lb.trace), lb.faults, lb.trace)
      ensures Reconciled(old(lb.w), old(lb.trace), listed, lb.w, lb.trace, ports, g, served, r)
    {
      hide Progress, OptionsShare, ServedAll, Sparing, NoChurn, Lists, Framed, Safe, Touched, Reaped, ProperNodes,
           Matches, FoundInPlace, Left, Cloud.Valid, Desired, NodeOrder, LiveNamed, ActiveProtocol, AllAddressed,
           Reconciled, SharingKept, RemovesLast, IngressOf, Stuck;
      ghost var w0, t0 := lb.w, lb.trace;
      StartProgress(w0, name, listed);
      var lbs := Make(listed);
      var rest;
      r, rest, served := ServePorts(ports, vips, keepClientIP, access, lbs, nodes, g, name);
      ghost var w1, t1 := lb.w, lb.trace;
      if r.Fail? {
        NotAllServed(w0, t0, listed, w1, t1, ports, g, served, r);
        return;
      }
      var err := DeleteLoadBalancers(rest.arr[..rest.len]);
      AccountedLater(old(lb.faults), t0, t1, lb.faults, lb.trace, SERVING, err.None?);
      if err.Some? {
        AllServed(w0, t0, listed, w1, t1, rest.View(), lb.w, lb.trace, ports, g, served, Fail(err.value));
        return Fail(err.value), served;
      }
      ReapedLive(w0, w1, lb.w, name, rest.View(), served);
      SparingEnd(w0, w1, lb.w, name, rest.View(), served);
      AllServed(w0, t0, listed, w1, t1, rest.View(), lb.w, lb.trace, ports, g, served, r);
    }

    /** Brings the members of the service's load balancers in line, without creating or deleting any. */
    method UpdateLoadBalancer(cluster: string, service: Service, nodes: array<Node>)
      returns (err: Option<Error>, ghost done: nat)
      requires lb.Valid() && ActiveProtocol(lb.trace) && ProperNodes(nodes[..])
      modifies lb, nodes
      ensures lb.Valid() && ActiveProtocol(lb.trace)
      ensures MembersChanged(old(lb.w), lb.w, ServiceLBName(cluster, service))
      ensures Adds(old(lb.trace), lb.trace, {Poll, NodeWrite})
      ensures nodes[..] == old(nodes[..]) || nodes[..] == NodeOrder(old(nodes[..]))
      ensures done <= |service.ports| && (done > 0 ==> AllAddressed(NodeOrder(old(nodes[..]))))
      ensures err.None? || (service.ports != [] && AllAddressed(old(nodes[..]))
                            && forall p :: p in service.ports ==>
                                 exists id :: id in LiveNamed(old(lb.w), ServiceLBName(cluster, service))
                                              && old(lb.w).lbs[id].lb.port == p.port) ==>
                Accounted(err.None?, old(lb.faults), old(lb.trace), lb.faults, lb.trace)
      ensures UpdatedThrough(old(lb.w), lb.w, Valids(Collection(old(lb.w)), ServiceLBName(cluster, service)),
                             NodeOrder(old(nodes[..])), service.ports, done)
      ensures err.None? ==>
                && done == |service.ports| > 0
                && forall p :: p in service.ports ==>
                     FirstOnPort(Valids(Collection(old(lb.w)), ServiceLBName(cluster, service)), p.port).Some?
      ensures err.None? ==>
                forall k :: LastOnNumber(service.ports, k) ==>
                              UpdatedFor(lb.w, Valids(Collection(old(lb.w)), ServiceLBName(cluster, service)),
                                         service.ports[k], old(nodes[..]))
    {
      hide Lists, MembersChanged, Updated, UpdatedThrough, ValidRecord, ProperNodes, NodeOrder, AllAddressed, NodesOnly,
           NodesStep, FinalKeys, FirstOnPort, LiveNamed, Wanted, Valids, LoadBalancerName, IsLive, ActiveProtocol,
           Writes, Adds, Collection, LastOnNumber, UpdatedFor;
      OrderAddressed(nodes[..]);
      var ports := service.ports;
      ghost var w0, t0, d, ns0 := lb.w, lb.trace, NodeOrder(nodes[..]), nodes[..];
      var name := ServiceLBName(cluster, service);
      ghost var lbs := Valids(Collection(w0), name);
      done := 0;
      UpdatedNone(w0, name, lbs, d, ports);
      AddsNone(t0, {Poll, NodeWrite});
      if |ports| == 0 {
        return Some(ErrInvalid), done;
      }
      var listed := GetLoadBalancersByName(lb, name);
      if listed.Fail? {
        return Some(listed.error), done;
      }
      for k := 0 to |ports|
        invariant done == k && lb.Valid() && ActiveProtocol(lb.trace) && Adds(t0, lb.trace, {Poll, NodeWrite})
        invariant lb.faults == old(lb.faults)
        invariant ProperNodes(nodes[..]) && NodeOrder(nodes[..]) == d && (nodes[..] == ns0 || nodes[..] == d)
        invariant k > 0 ==> AllAddressed(d)
        invariant MembersChanged(w0, lb.w, name)
        invariant forall j :: 0 <= j < k ==> FirstOnPort(lbs, ports[j].port).Some?
        invariant Updated(w0, lb.w, lbs, d, ports[..k])
      {
        UpdatedStops(w0, lb.w, lbs, d, ports, k);
        var found := GetLoadBalancerByPort(listed.value, ports[k]);
        if found.None? {
          FirstOnPortMeaning(lbs, ports[k].port);
          NoneOnPort(w0, name, lbs, ports[k].port);
          assert ports[k] in service.ports;
          return Some(ErrInvalid), done;
        }
        ghost var t1, ns := lb.trace, nodes[..];
        err := UpdatePort(found.value, ports[k], nodes, w0, lbs, ports, k, name);
        NodesKept(ns, nodes[..]);
        AddsThen(t0, t1, lb.trace, {Poll, NodeWrite}, {Poll, NodeWrite}, {Poll, NodeWrite});
        if err.None? || AllAddressed(d) {
          AccountedLater(old(lb.faults), t0, t1, lb.faults, lb.trace, {Poll, NodeWrite}, err.None?);
        }
        if err.Some? {
          return err, done;
        }
        done := k + 1;
      }
      UpdatedStops(w0, lb.w, lbs, d, ports, |ports|);
      assert ports[..|ports|] == ports;
      UpdatedOfNodes(w0, lb.w, lbs, ns0, ports);
      return None, done;
    }

    /** One round of the loop over the ports. */
    method UpdatePort(x: LoadBalancer, port: ServicePort, nodes: array<Node>, ghost w0: World,
                      ghost lbs: seq<LoadBalancer>, ghost ports: seq<ServicePort>, ghost k: nat, ghost name: string)
      returns (err: Option<Error>)
      requires lb.Valid() && ActiveProtocol(lb.trace) && ProperNodes(nodes[..])
      requires k < |ports| && ports[k] == port && Lists(w0, name, lbs) && FirstOnPort(lbs, ports[k].port) == Some(x)
      requires MembersChanged(w0, lb.w, name) && Updated(w0, lb.w, lbs, NodeOrder(nodes[..]), ports[..k])
      modifies lb`w, lb`trace, lb`faults, nodes
      ensures lb.Valid() && ActiveProtocol(lb.trace) && Adds(old(lb.trace), lb.trace, {Poll, NodeWrite})
      ensures nodes[..] == old(nodes[..]) || nodes[..] == NodeOrder(old(nodes[..]))
      ensures err.None? || AllAddressed(NodeOrder(old(nodes[..]))) ==>
                Accounted(err.None?, old(lb.faults), old(lb.trace), lb.faults, lb.trace)
      ensures MembersChanged(w0, lb.w, name)
      ensures err.Some? ==> UpdatedThrough(w0, lb.w, lbs, NodeOrder(old(nodes[..])), ports, k)
      ensures err.None? ==>
                && AllAddressed(NodeOrder(old(nodes[..])))
                && Updated(w0, lb.w, lbs, NodeOrder(old(nodes[..])), ports[..k + 1])
    {
      hide Lists, MembersChanged, Updated, UpdatedThrough, ProperNodes, NodeOrder, AllAddressed, NodesOnly, NodesStep,
           FinalKeys, FirstOnPort, LiveNamed, Wanted, ActiveProtocol, Writes, Cloud.Valid, Adds;
      ghost var w1, d := lb.w, NodeOrder(nodes[..]);
      FirstOnPortMeaning(lbs, ports[k].port);
      ListedNamed(w0, name, lbs, x);
      ListsDistinct(w0, name, lbs);
      ChangedLive(w0, w1, name, x.id);
      err := FinishPort(x.id, port, nodes);
      MembersChangedMore(w0, w1, lb.w, name, x.id);
      if err.Some? {
        UpdatedPart(w0, w1, lb.w, lbs, d, ports, k, x);
      } else {
        UpdatedMore(w0, w1, lb.w, lbs, d, ports[..k], ports[k], x);
        assert ports[..k + 1] == ports[..k] + [ports[k]];
      }
    }

    /** Deletes all load balancers of the service. */
    method EnsureLoadBalancerDeleted(cluster: string, service: Service) returns (err: Option<Error>)
      requires lb.Valid() && ActiveProtocol(lb.trace)
      modifies lb
      ensures lb.Valid() && ActiveProtocol(lb.trace)
      ensures Reaped(old(lb.w), lb.w, LiveNamed(old(lb.w), ServiceLBName(cluster, service)))
      ensures Framed(old(lb.w), lb.w, ServiceLBName(cluster, service))
      ensures Adds(old(lb.trace), lb.trace, REMOVING)
      ensures Accounted(err.None?, old(lb.faults), old(lb.trace), lb.faults, lb.trace)
      ensures err.None? ==> LiveNamed(lb.w, ServiceLBName(cluster, service)) == {}
    {
      hide Cloud.Valid;
      var name := ServiceLBName(cluster, service);
      ghost var w0 := lb.w;
      var listed := GetLoadBalancersByName(lb, name);
      if listed.Fail? {
        return Some(listed.error);
      }
      if |listed.value| == 0 {
        assert LiveNamed(lb.w, name) == {};
        return None;
      }
      err := DeleteLoadBalancers(listed.value);
      ReapedNamedFramed(w0, lb.w, name);
      if err.None? {
        AllReaped(w0, lb.w, name, listed.value);
      }
    }

    /** Looks the service up: its first port's load balancer and that one's first virtual IP. */
    method GetLoadBalancer(cluster: string, service: Service) returns (r: Result<Option<string>>, ghost id: nat)
      requires lb.Valid()
      modifies lb`requests, lb`faults
      ensures lb.faults == old(lb.faults) + if r.Success? then 0 else 1
      ensures lb.Valid()
      ensures r.Success? && r.value.Some? ==>
                && service.ports != [] && id in LiveNamed(lb.w, ServiceLBName(cluster, service))
                && id in lb.w.lbs && lb.w.lbs[id].lb.port == service.ports[0].port
                && lb.w.lbs[id].lb.vips != [] && r.value.value == lb.w.lbs[id].lb.vips[0].address
      ensures r.Success? && r.value.None? && service.ports != [] ==>
                forall j :: j in LiveNamed(lb.w, ServiceLBName(cluster, service)) ==>
                              lb.w.lbs[j].lb.port != service.ports[0].port
    {
      id := 0;
      if |service.ports| == 0 {
        return Success(None), id;
      }
      var name := ServiceLBName(cluster, service);
      var listed := GetLoadBalancersByName(lb, name);
      if listed.Fail? {
        return Fail(listed.error), id;
      }
      var found := GetLoadBalancerByPort(listed.value, service.ports[0]);
      FirstOnPortMeaning(listed.value, service.ports[0].port);
      if found.None? {
        NoneOnPort(lb.w, name, listed.value, service.ports[0].port);
        return Success(None), id;
      }
      ListedNamed(lb.w, name, listed.value, found.value);
      assert ValidRecord(found.value.id, lb.w.lbs[found.value.id], lb.w.vips);
      id := found.value.id;
      return Success(Some(found.value.vips[0].address)), id;
    }
  }

  lemma NoneOnPort(w: World, name: string, lbs: seq<LoadBalancer>, port: int)
    requires Lists(w, name, lbs) && forall x :: x in lbs ==> x.port != port
    ensures forall j :: j in LiveNamed(w, name) ==> w.lbs[j].lb.port != port
  {
  }

  lemma ChangedLive(w0: World, w: World, name: string, id: nat)
    requires MembersChanged(w0, w, name) && id in LiveNamed(w0, name)
    ensures LiveAt(w, id)
  {
  }

  lemma ListsDistinct(w: World, name: string, lbs: seq<LoadBalancer>)
    requires Lists(w, name, lbs)
    ensures DistinctIds(lbs)
  {
  }

  /** Once every listed load balancer is dead, none of the name is alive. */
  lemma AllReaped(w0: World, w: World, name: string, lbs: seq<LoadBalancer>)
    requires Lists(w0, name, lbs) && Reaped(w0, w, Ids(lbs))
    requires forall i :: i in Ids(lbs) ==> !LiveAt(w, i)
    ensures LiveNamed(w, name) == {}
  {
  }

  /** A member of the listing is a live load balancer of the name. */
  lemma ListedNamed(w: World, name: string, lbs: seq<LoadBalancer>, x: LoadBalancer)
    requires Lists(w, name, lbs) && x in lbs
    ensures x.id in LiveNamed(w, name) && w.lbs[x.id].lb == x
  {
  }

  /** The members of a listed load balancer after the ports had their turn. */
  ghost function UpdatedKeys(w0: World, lbs: seq<LoadBalancer>, x: LoadBalancer, nodes: seq<Node>,
                             ports: seq<ServicePort>): set<Key> {
    var before := Keys(MembersAt(w0, x.id));
    if FirstOnPort(lbs, x.port) == Some(x) then PortKeys(before, nodes, ports, x.port) else before
  }

  ghost predicate Updated(w0: World, w: World, lbs: seq<LoadBalancer>, nodes: seq<Node>, ports: seq<ServicePort>) {
    forall x :: x in lbs ==> Keys(MembersAt(w, x.id)) == UpdatedKeys(w0, lbs, x, nodes, ports)
  }

  predicate LastOnNumber(ports: seq<ServicePort>, k: int) {
    0 <= k < |ports| && forall i :: k < i < |ports| ==> ports[i].port != ports[k].port
  }

  /** The first load balancer listed on the port's number has members of the nodes at its node port. */
  ghost predicate UpdatedFor(w: World, lbs: seq<LoadBalancer>, p: ServicePort, nodes: seq<Node>) {
    && FirstOnPort(lbs, p.port).Some?
    && OfNodes(Keys(MembersAt(w, FirstOnPort(lbs, p.port).value.id)), nodes, p.nodePort)
  }

  lemma UpdatedOfNodes(w0: World, w: World, lbs: seq<LoadBalancer>, nodes: seq<Node>, ports: seq<ServicePort>)
    requires Updated(w0, w, lbs, NodeOrder(nodes), ports) && ProperNodes(nodes) && AllAddressed(NodeOrder(nodes))
    requires forall p :: p in ports ==> FirstOnPort(lbs, p.port).Some?
    ensures forall k :: LastOnNumber(ports, k) ==> UpdatedFor(w, lbs, ports[k], nodes)
  {
    hide ProperNodes, AllAddressed, NodeOrder, OfNodes, FinalKeys, Wanted, PortKeys;
    forall k | LastOnNumber(ports, k) ensures UpdatedFor(w, lbs, ports[k], nodes) {
      var p := ports[k];
      assert p in ports;
      FirstOnPortMeaning(lbs, p.port);
      var x := FirstOnPort(lbs, p.port).value;
      var before := PortKeysFinal(Keys(MembersAt(w0, x.id)), NodeOrder(nodes), ports, k);
      FinalOfNodes(before, nodes, p.nodePort);
    }
  }

  /** The first `done` ports had their turn; the next one at most began on its load balancer. */
  ghost predicate UpdatedThrough(w0: World, w: World, lbs: seq<LoadBalancer>, nodes: seq<Node>, ports: seq<ServicePort>,
                                 done: nat)
    requires done <= |ports|
  {
    forall x :: x in lbs ==>
      var before, now := UpdatedKeys(w0, lbs, x, nodes, ports[..done]), Keys(MembersAt(w, x.id));
      if done < |ports| && FirstOnPort(lbs, ports[done].port) == Some(x)
      then NodesStep(before, now, nodes, ports[done].nodePort) else now == before
  }

  lemma UpdatedNone(w: World, name: string, lbs: seq<LoadBalancer>, nodes: seq<Node>, ports: seq<ServicePort>)
    ensures ports[..0] == [] && MembersChanged(w, w, name)
    ensures Updated(w, w, lbs, nodes, ports[..0]) && UpdatedThrough(w, w, lbs, nodes, ports, 0)
  {
  }

  lemma UpdatedStops(w0: World, w: World, lbs: seq<LoadBalancer>, nodes: seq<Node>, ports: seq<ServicePort>, k: nat)
    requires k <= |ports| && Updated(w0, w, lbs, nodes, ports[..k])
    ensures UpdatedThrough(w0, w, lbs, nodes, ports, k)
  {
  }

  lemma UpdatedPart(w0: World, w1: World, w2: World, lbs: seq<LoadBalancer>, nodes: seq<Node>, ports: seq<ServicePort>,
                    k: nat, y: LoadBalancer)
    requires DistinctIds(lbs) && k < |ports| && Updated(w0, w1, lbs, nodes, ports[..k])
    requires FirstOnPort(lbs, ports[k].port) == Some(y) && NodesOnly(w1, w2, y.id)
    requires NodesStep(Keys(MembersAt(w1, y.id)), Keys(MembersAt(w2, y.id)), nodes, ports[k].nodePort)
    ensures UpdatedThrough(w0, w2, lbs, nodes, ports, k)
  {
    hide UpdatedKeys, NodesStep;
    FirstOnPortMeaning(lbs, ports[k].port);
    forall x | x in lbs && x != y ensures MembersAt(w2, x.id) == MembersAt(w1, x.id) {
      assert x.id != y.id;
    }
  }

  /** With distinct port numbers an update, interrupted or not, is a step of at most one port for each load balancer. */
  lemma UpdatedTouched(w0: World, w: World, lbs: seq<LoadBalancer>, ports: seq<ServicePort>, done: nat, g: Goal)
    requires MembersChanged(w0, w, g.name) && Lists(w0, g.name, lbs) && DistinctPorts(ports)
    requires done <= |ports| && UpdatedThrough(w0, w, lbs, g.nodes, ports, done) && (done > 0 ==> AllAddressed(g.nodes))
    ensures Touched(w0, w, ports, g)
  {
    hide LiveNamed, MemberStep, AccessStep, AllAddressed, DistinctPorts, UpdatedKeys, NodesStep;
    AccessStays(g.ranges);
    forall id | id in w.lbs ensures TouchedAt(w0, w, id, ports, g) {
      if id in LiveNamed(w0, g.name) {
        assert id in Ids(lbs);
        var x :| x in lbs && x.id == id;
        UpdatedStep(w0, w, lbs, x, ports, done, g);
      } else {
        MemberStays(Keys(MembersAt(w, id)), w.lbs[id].lb.port, ports, g.nodes);
      }
    }
  }

  lemma AccessStays(ranges: set<string>)
    ensures forall access :: AccessStep(access, access, ranges)
  {
  }

  lemma MemberStays(now: set<Key>, v: int, ports: seq<ServicePort>, nodes: seq<Node>)
    ensures MemberStep(now, now, v, ports, nodes)
  {
  }

  lemma UpdatedStep(w0: World, w: World, lbs: seq<LoadBalancer>, x: LoadBalancer, ports: seq<ServicePort>, done: nat,
                    g: Goal)
    requires done <= |ports| && UpdatedThrough(w0, w, lbs, g.nodes, ports, done) && (done > 0 ==> AllAddressed(g.nodes))
    requires x in lbs && DistinctPorts(ports)
    ensures MemberStep(Keys(MembersAt(w0, x.id)), Keys(MembersAt(w, x.id)), x.port, ports, g.nodes)
  {
    hide AllAddressed, FinalKeys, Wanted, PortKeys;
    var before, now := Keys(MembersAt(w0, x.id)), Keys(MembersAt(w, x.id));
    FirstOnPortMeaning(lbs, x.port);
    if done < |ports| && FirstOnPort(lbs, ports[done].port) == Some(x) {
      FirstOnPortMeaning(lbs, ports[done].port);
      PortKeysAbsent(before, g.nodes, ports[..done], x.port);
      assert ports[done] in ports;
    } else if k :| 0 <= k < done && ports[k].port == x.port {
      PortKeysDistinct(before, g.nodes, ports[..done], k);
      assert ports[k] in ports;
      assert now == before || NodesStep(before, now, g.nodes, ports[k].nodePort);
    } else {
      PortKeysAbsent(before, g.nodes, ports[..done], x.port);
    }
  }

  lemma UpdatedMore(w0: World, w1: World, w2: World, lbs: seq<LoadBalancer>, nodes: seq<Node>, ports: seq<ServicePort>,
                    p: ServicePort, y: LoadBalancer)
    requires DistinctIds(lbs) && Updated(w0, w1, lbs, nodes, ports)
    requires FirstOnPort(lbs, p.port) == Some(y) && NodesOnly(w1, w2, y.id)
    requires Keys(MembersAt(w2, y.id)) == FinalKeys(Keys(MembersAt(w1, y.id)), Wanted(nodes, p.nodePort))
    ensures Updated(w0, w2, lbs, nodes, ports + [p])
  {
    FirstOnPortMeaning(lbs, p.port);
    assert (ports + [p])[..|ports|] == ports;
    forall x | x in lbs ensures Keys(MembersAt(w2, x.id)) == UpdatedKeys(w0, lbs, x, nodes, ports + [p])
    {
      if x.id == y.id {
        assert x == y;
      } else {
        assert MembersAt(w2, x.id) == MembersAt(w1, x.id);
        assert FirstOnPort(lbs, x.port) == Some(x) ==> x.port != p.port;
      }
    }
  }

  /** What has been served stays alive as long as nothing live of the name dies. */
  lemma ServedAlive(w0: World, w: World, w': World, name: string, rest: seq<LoadBalancer>, served: seq<nat>)
    requires Progress(w0, w, name, rest, served) && LiveNamed(w, name) <= LiveNamed(w', name)
    ensures forall s :: s in served ==> LiveAt(w', s)
  {
    forall s | s in served ensures LiveAt(w', s) {
      assert s in ToSet(served);
      assert s in LiveNamed(w', name);
    }
  }

  lemma SparingNext(w0: World, w1: World, w2: World, name: string, rest: seq<LoadBalancer>, served: seq<nat>,
                    rest': seq<LoadBalancer>, id: nat, p: ServicePort, g: Goal)
    requires Sparing(w0, w1, rest, served) && Progress(w0, w1, name, rest, served)
    requires Takes(w0, rest, rest', p.port, id)
    requires Progress(w0, w2, name, rest', served + [id]) && SameExcept(w1, w2, id) && Served(w0, w2, id, p, g)
    ensures Sparing(w0, w2, rest', served + [id])
  {
    hide Safe, LiveNamed, Without;
    assert id !in served by {
      assert (served + [id])[|served|] == id;
      assert forall i :: 0 <= i < |served| ==> (served + [id])[i] == served[i];
    }
    FirstOnPortMeaning(rest, p.port);
    WithoutMeaning(rest, id);
    SparingMore(w0, w1, w2, rest, served, rest', id, p);
  }

  lemma ServedNone(w: World, lbs: seq<LoadBalancer>, ports: seq<ServicePort>, g: Goal)
    ensures ports[..0] == [] && FoundInPlace(w, lbs, ports, g, 0)
    ensures ServedAll(w, w, [], ports[..0], g) && Sparing(w, w, lbs, []) && Touched(w, w, ports, g)
    ensures Matches(w, lbs, ports, []) && Left(lbs, ports[..0]) == lbs
  {
  }

  /** One more round: only polls so far exactly when every port so far found its load balancer in place. */
  lemma FoundOnwards(w0: World, w: World, name: string, lbs: seq<LoadBalancer>, rest: seq<LoadBalancer>,
                     served: seq<nat>, ports: seq<ServicePort>, k: nat, g: Goal, t0: Trace, t1: Trace, t2: Trace,
                     done: bool)
    requires k < |ports| && Progress(w0, w, name, rest, served) && rest == Left(lbs, ports[..k])
    requires Adds(t0, t1, SERVING) && Adds(t1, t2, SERVING)
    requires FoundInPlace(w0, lbs, ports, g, k) <==> Adds(t0, t1, {Poll})
    requires FindsInPlace(w, rest, ports[k], g) ==> Adds(t1, t2, {Poll})
    requires done && Adds(t1, t2, {Poll}) ==> FindsInPlace(w, rest, ports[k], g)
    ensures Adds(t0, t2, SERVING)
    ensures done ==> (FoundInPlace(w0, lbs, ports, g, k + 1) <==> Adds(t0, t2, {Poll}))
    ensures FoundInPlace(w0, lbs, ports, g, |ports|) ==> Adds(t0, t2, {Poll})
  {
    hide FindsInPlace, Left, Progress;
    SameFinds(w0, w, name, rest, served, ports[k], g);
    AddsThen(t0, t1, t2, SERVING, SERVING, SERVING);
    if Adds(t0, t1, {Poll}) && Adds(t1, t2, {Poll}) {
      AddsThen(t0, t1, t2, {Poll}, {Poll}, {Poll});
    }
    if Adds(t0, t2, {Poll}) {
      AddsParts(t0, t1, t2, SERVING, SERVING, {Poll});
    }
  }

  lemma NothingReconciled(w: World, t: Trace, listed: seq<LoadBalancer>, ports: seq<ServicePort>, g: Goal)
    ensures forall e :: Reconciled(w, t, listed, w, t, ports, g, [], Fail(e))
  {
    hide InOrder, SharingKept, RemovesLast;
    SharingSelf(w);
    RemovesNothing(t, t);
  }

  lemma SharingSelf(w: World)
    ensures SharingKept(w, w)
  {
  }

  lemma RemovesNothing(t: Trace, t': Trace)
    requires Adds(t, t', SERVING)
    ensures RemovesLast(t, t')
  {
    assert Adds(t', t', REMOVING);
  }

  /** A call that ended before all ports were served. */
  lemma NotAllServed(w0: World, t0: Trace, listed: seq<LoadBalancer>, w: World, t: Trace, ports: seq<ServicePort>,
                     g: Goal, served: seq<nat>, r: Result<string>)
    requires r.Fail? && |served| < |ports| && Safe(w0, w, g.name) && Touched(w0, w, ports, g)
    requires Adds(t0, t, SERVING) && Matches(w0, listed, ports, served) && forall s :: s in served ==> LiveAt(w, s)
    requires FoundInPlace(w0, listed, ports, g, |ports|) ==> Adds(t0, t, {Poll})
    ensures Reconciled(w0, t0, listed, w, t, ports, g, served, r)
  {
    hide Framed, Touched, Matches, FoundInPlace, RemovesLast, SharingKept, VipsSharedOf;
    FramedSharing(w0, w, g.name);
    RemovesNothing(t0, t);
  }

  /** A call that served all ports and went on to delete the rest. */
  lemma AllServed(w0: World, t0: Trace, listed: seq<LoadBalancer>, w1: World, t1: Trace, rest: seq<LoadBalancer>,
                  w: World, t: Trace, ports: seq<ServicePort>, g: Goal, served: seq<nat>, r: Result<string>)
    requires Progress(w0, w1, g.name, rest, served) && ServedAll(w0, w1, served, ports, g)
    requires Touched(w0, w1, ports, g) && Matches(w0, listed, ports, served)
    requires Adds(t0, t1, SERVING) && Adds(t1, t, REMOVING) && Reaped(w1, w, Ids(rest))
    requires rest == Left(listed, ports) && if rest == [] then t == t1 else !Adds(t1, t, {Poll})
    requires FoundInPlace(w0, listed, ports, g, |ports|) <==> Adds(t0, t1, {Poll})
    requires r.Success? ==>
               && LiveNamed(w, g.name) == ToSet(served) && NoChurn(w0, w, g.name)
               && (ports != [] ==> AllAddressed(g.nodes) && r.value == IngressOf(w1, served[|served| - 1]))
    ensures Reconciled(w0, t0, listed, w, t, ports, g, served, r)
  {
    hide Framed, Touched, Matches, FoundInPlace, SharingKept, Progress, ServedAll, NoChurn, Reaped, IngressOf,
         LiveNamed, AllAddressed, Left;
    ProgressSafe(w0, w1, g.name, rest, served);
    Finished(w0, w1, w, g.name, rest, served, ports, g);
    ReapedSharing(w0, w1, w, g.name, rest, served);
    TouchedReaped(w0, w1, w, Ids(rest), ports, g);
    ServedCount(w0, w1, served, ports, g);
    if Adds(t0, t, {Poll}) {
      AddsParts(t0, t1, t, SERVING, REMOVING, {Poll});
    }
    if r.Success? && ports != [] {
      assert served[|served| - 1] in served;
    }
  }

  lemma AllFulfilled(w0: World, t0: Trace, listed: seq<LoadBalancer>, w: World, t: Trace, service: Service, g: Goal,
                     nodes: seq<Node>, served: seq<nat>, r: Result<string>)
    requires Reconciled(w0, t0, listed, w, t, service.ports, g, served, r) && r.Success? && service.ports != []
    requires ProperNodes(nodes) && g.nodes == NodeOrder(nodes)
    requires g.keepClientIP == (KeepClientIP(service) == Some(true))
    ensures |served| == |service.ports| && NoDup(served)
    ensures forall k :: 0 <= k < |served| ==>
              served[k] in w.lbs && Fulfils(w.lbs[served[k]], service, service.ports[k], nodes)
  {
    hide ProperNodes, AllAddressed, NodeOrder, Framed, Touched, Matches, InOrder, RemovesLast, SharingKept, NoChurn,
         OfNodes, FinalKeys, Wanted, AccessInLine;
    KeepClientIPMeaning(service);
    forall k | 0 <= k < |served|
      ensures served[k] in w.lbs && Fulfils(w.lbs[served[k]], service, service.ports[k], nodes)
    {
      var id, p := served[k], service.ports[k];
      assert Served(w0, w, id, p, g);
      FinalOfNodes(Keys(MembersAt(w0, id)), nodes, p.nodePort);
    }
  }

  lemma ServedCount(w0: World, w: World, served: seq<nat>, ports: seq<ServicePort>, g: Goal)
    requires ServedAll(w0, w, served, ports, g)
    ensures |served| == |ports|
  {
  }

  lemma ProgressSafe(w0: World, w: World, name: string, rest: seq<LoadBalancer>, served: seq<nat>)
    requires Progress(w0, w, name, rest, served)
    ensures Safe(w0, w, name) && NoDup(served)
  {
  }

  lemma OrderAddressed(nodes: seq<Node>)
    requires ProperNodes(nodes)
    ensures AllAddressed(NodeOrder(nodes)) <==> AllAddressed(nodes)
  {
    NodeOrderPermutes(nodes);
    PermutedNodes(nodes, NodeOrder(nodes), 0);
  }

  lemma NodesKept(ns: seq<Node>, ns': seq<Node>)
    requires ProperNodes(ns) && (ns' == ns || ns' == NodeOrder(ns))
    ensures ProperNodes(ns') && NodeOrder(ns') == NodeOrder(ns) && multiset(ns') == multiset(ns)
  {
    NodeOrderPermutes(ns);
    PermutedNodes(ns, ns', 0);
  }

  /** Serving one more port leaves the ports already served as they are. */
  lemma ServedKept(w0: World, w1: World, w2: World, rest: seq<LoadBalancer>, served: seq<nat>, ports: seq<ServicePort>,
                   p: ServicePort, id: nat, g: Goal)
    requires ServedAll(w0, w1, served, ports, g) && Progress(w0, w2, g.name, rest, served + [id])
    requires SameExcept(w1, w2, id) && Served(w0, w2, id, p, g)
    ensures ServedAll(w0, w2, served + [id], ports + [p], g)
  {
    forall k | 0 <= k < |ports| ensures Served(w0, w2, served[k], ports[k], g) {
      assert (served + [id])[k] != (served + [id])[|served|];
      assert Served(w0, w1, served[k], ports[k], g);
    }
  }

  /** Deleting the rest disturbs no served port. */
  lemma Finished(w0: World, w1: World, w2: World, name: string, rest: seq<LoadBalancer>, served: seq<nat>,
                 ports: seq<ServicePort>, g: Goal)
    requires Progress(w0, w1, name, rest, served) && ServedAll(w0, w1, served, ports, g)
    requires Reaped(w1, w2, Ids(rest))
    ensures Framed(w0, w2, name) && ServedAll(w0, w2, served, ports, g)
    ensures forall s :: s in served ==> LiveAt(w2, s) && IngressOf(w2, s) == IngressOf(w1, s)
  {
    ReapedFramed(w0, w1, w2, name, rest, served);
    ReapedServed(w0, w1, w2, name, rest, served);
    forall k | 0 <= k < |ports| ensures Served(w0, w2, served[k], ports[k], g) {
      assert served[k] in served;
      assert Served(w0, w1, served[k], ports[k], g);
    }
  }

  /** What a call leaves of the access list. */
  ghost predicate Rewritten(w1: World, w2: World, id: nat, access: seq<NetworkItem>, done: bool) {
    var before, now := AccessAt(w1, id), AccessAt(w2, id);
    if SameAccess(before, access) then now == before
    else now == access || (!done && (now == before || now == []))
  }

  lemma RewrittenSteps(w0: World, w1: World, w2: World, id: nat, access: seq<NetworkItem>, done: bool,
                       ranges: set<string>)
    requires Rewritten(w1, w2, id, access, done) && Desired(access, ranges) && AccessAt(w1, id) == AccessAt(w0, id)
    ensures AccessStep(AccessAt(w0, id), AccessAt(w2, id), ranges)
    ensures done ==> AccessInLine(AccessAt(w0, id), AccessAt(w2, id), ranges)
  {
    hide SameAccess, AccessStep, AccessInLine, Desired;
    RewriteSteps(AccessAt(w0, id), AccessAt(w2, id), access, ranges);
  }

  /** A listed load balancer agrees exactly when there is nothing to write before its members are looked at. */
  lemma ListedAgrees(w: World, x: LoadBalancer, p: ServicePort, access: seq<NetworkItem>, g: Goal)
    requires LiveAt(w, x.id) && w.lbs[x.id].lb == x && Desired(access, g.ranges)
    ensures Agrees(w, x.id, p, g) <==>
              SameAccess(AccessAt(w, x.id), access) && x.protocol == ToLBProtocol(p.protocol, g.keepClientIP)
  {
    hide SameAccess, AccessMatches, Desired;
    DesiredMatches(access, g.ranges);
    MatchesBySet(AccessAt(w, x.id), access, g.ranges);
  }

  /** The next port finds a load balancer whose protocol and access list agree. */
  ghost predicate FindsAgreeing(w: World, lbs: seq<LoadBalancer>, p: ServicePort, g: Goal) {
    FirstOnPort(lbs, p.port).Some? && Agrees(w, FirstOnPort(lbs, p.port).value.id, p, g)
  }

  lemma InPlaceAgrees(w: World, lbs: seq<LoadBalancer>, p: ServicePort, g: Goal)
    ensures FindsInPlace(w, lbs, p, g) ==> FindsAgreeing(w, lbs, p, g)
  {
  }

  /** One round adds only polls exactly when it finds a load balancer in place. */
  lemma FoundOrNot(w0: World, w1: World, w2: World, t1: Trace, t2: Trace, t3: Trace, lbs: seq<LoadBalancer>,
                   rest: seq<LoadBalancer>, id: nat, p: ServicePort, g: Goal, done: bool)
    requires Takes(w0, lbs, rest, p.port, id) && LiveAt(w2, id)
    requires Adds(t1, t2, {BalancerWrite}) && Adds(t2, t3, {Poll, NodeWrite})
    requires FindsAgreeing(w1, lbs, p, g) ==> w2 == w1 && t2 == t1
    requires t2 == t1 ==> FindsAgreeing(w1, lbs, p, g)
    requires Writes(Keys(MembersAt(w2, id)), Wanted(g.nodes, p.nodePort)) == 0 ==> Adds(t2, t3, {Poll})
    requires done && Adds(t2, t3, {Poll}) ==> Writes(Keys(MembersAt(w2, id)), Wanted(g.nodes, p.nodePort)) == 0
    ensures FindsInPlace(w1, lbs, p, g) ==> Adds(t1, t3, {Poll})
    ensures done && Adds(t1, t3, {Poll}) ==> FindsInPlace(w1, lbs, p, g)
  {
    hide Writes, Agrees, Without;
    if done && Adds(t1, t3, {Poll}) {
      AddsParts(t1, t2, t3, {BalancerWrite}, {Poll, NodeWrite}, {Poll});
      OnlyPollsAdded(t1, t2);
    }
  }

  lemma RemovalAdded(t0: Trace, t1: Trace, t2: Trace, id: nat)
    requires Adds(t0, t1, REMOVING) && Adds(Then(t1, Removed(id)), t2, REMOVING)
    ensures Adds(t0, t2, REMOVING) && !Adds(t0, t2, {Poll})
  {
    var t := Then(t1, Removed(id));
    AddsThen(t0, t, t2, REMOVING, REMOVING, REMOVING);
    if Adds(t0, t2, {Poll}) {
      AddsParts(t0, t, t2, REMOVING, REMOVING, {Poll});
      AddsLonger(t0, t1, REMOVING);
      assert false;
    }
  }

  /** Adjusting a listed load balancer, completely or not, is safe. */
  lemma AdoptedSafe(w0: World, w1: World, w2: World, view: seq<LoadBalancer>, served: seq<nat>, x: LoadBalancer,
                    access: seq<NetworkItem>, done: bool, ports: seq<ServicePort>, g: Goal)
    requires Progress(w0, w1, g.name, view, served) && x in view && Touched(w0, w1, ports, g)
    requires Tuned(w1, w2, x.id) && MembersAt(w2, x.id) == MembersAt(w1, x.id)
    requires Rewritten(w1, w2, x.id, access, done) && Desired(access, g.ranges)
    ensures Safe(w0, w2, g.name) && LiveNamed(w1, g.name) <= LiveNamed(w2, g.name) && Touched(w0, w2, ports, g)
  {
    hide Progress, Safe, Touched, Tuned, Rewritten, Desired, AccessStep, LiveNamed;
    ListedLive(w0, w1, g.name, view, served, x);
    ProgressSafe(w0, w1, g.name, view, served);
    TunedSafe(w0, w1, w2, x.id, g.name);
    TunedLive(w1, w2, x.id, g.name);
    RewrittenSteps(w0, w1, w2, x.id, access, done, g.ranges);
    TouchedTuned(w0, w1, w2, x.id, ports, g);
  }

  lemma OptionsKnown(w: World, name: string, options: seq<VipOption>)
    requires OptionsShare(w, name, options)
    ensures KnownVips(w, options)
  {
  }

  lemma ProgressIds(w0: World, w: World, name: string, rest: seq<LoadBalancer>, served: seq<nat>)
    requires Progress(w0, w, name, rest, served)
    ensures DistinctIds(rest)
  {
  }

  lemma PreparedThere(w0: World, w: World, id: nat, p: ServicePort, g: Goal)
    requires Prepared(w0, w, id, p, g)
    ensures LiveAt(w, id)
  {
  }

  /** After access list and protocol are in line, only the members are missing. */
  lemma RetunedPrepared(w0: World, w1: World, w2: World, x: LoadBalancer, p: ServicePort, access: seq<NetworkItem>,
                        g: Goal)
    requires LiveAt(w1, x.id) && w1.lbs[x.id].lb == x && x.name == g.name && x.port == p.port
    requires MembersAt(w1, x.id) == MembersAt(w0, x.id) && AccessAt(w1, x.id) == AccessAt(w0, x.id)
    requires Tuned(w1, w2, x.id) && MembersAt(w2, x.id) == MembersAt(w1, x.id)
    requires Rewritten(w1, w2, x.id, access, true) && Desired(access, g.ranges)
    requires w2.lbs[x.id].lb.protocol == ToLBProtocol(p.protocol, g.keepClientIP)
    ensures Prepared(w0, w2, x.id, p, g)
  {
    hide Rewritten, Desired, AccessInLine, AccessStep;
    RewrittenSteps(w0, w1, w2, x.id, access, true, g.ranges);
  }

  /** Tuning a listed load balancer and taking it out of the list makes progress. */
  lemma Adopted(w0: World, w1: World, w2: World, name: string, view: seq<LoadBalancer>, served: seq<nat>,
                x: LoadBalancer, rest: seq<LoadBalancer>, vips: seq<VipOption>)
    requires Progress(w0, w1, name, view, served) && OptionsShare(w1, name, vips)
    requires x in view && Tuned(w1, w2, x.id)
    requires DistinctIds(rest) && (forall y :: y in rest <==> y in view && y.id != x.id)
    ensures Progress(w0, w2, name, rest, served + [x.id]) && OptionsShare(w2, name, vips)
    ensures SameExcept(w1, w2, x.id) && x.id in w2.lbs && x.vips == w2.lbs[x.id].lb.vips
  {
    hide Progress, OptionsShare;
    ListedLive(w0, w1, name, view, served, x);
    TunedOptions(w1, w2, x.id, name, vips);
    TakeProgress(w0, w1, name, view, served, x, rest);
    TunedProgress(w0, w1, w2, name, rest, served + [x.id], x.id);
  }

  /** Every other load balancer is still there as it was. */
  ghost predicate SameExcept(w: World, w': World, id: nat) {
    forall j :: j in w.lbs && j != id ==> j in w'.lbs && w'.lbs[j] == w.lbs[j]
  }

  lemma SameExceptTransitive(w0: World, w1: World, w2: World, id: nat)
    requires SameExcept(w0, w1, id) && OnlyAt(w1, w2, id)
    ensures SameExcept(w0, w2, id)
  {
  }

  /** A listed load balancer is alive and as it was at the start. */
  lemma ListedLive(w0: World, w: World, name: string, rest: seq<LoadBalancer>, served: seq<nat>, x: LoadBalancer)
    requires Progress(w0, w, name, rest, served) && x in rest
    ensures x.id in LiveNamed(w, name) && LiveAt(w, x.id) && w.lbs[x.id].lb == x && x.name == name && x.id in w0.lbs
    ensures MembersAt(w, x.id) == MembersAt(w0, x.id) && AccessAt(w, x.id) == AccessAt(w0, x.id)
  {
  }

  /** At most `id` died. */
  ghost predicate Fading(w: World, w': World, id: nat) {
    && OnlyAt(w, w', id)
    && (id in w.lbs ==>
          var r, r' := w.lbs[id], w'.lbs[id];
          (IsLive(r'.lb.status) ==> IsLive(r.lb.status)) && r' == r.(lb := r.lb.(status := r'.lb.status)))
  }

  lemma ReapedNone(w: World, ids: set<nat>)
    ensures Reaped(w, w, ids)
  {
  }

  lemma ReapedMore(w0: World, w1: World, w2: World, ids: set<nat>, id: nat)
    requires Reaped(w0, w1, ids) && id in ids && Fading(w1, w2, id)
    ensures Reaped(w0, w2, ids)
  {
    assert forall j :: j in w0.lbs && j != id ==> w2.lbs[j] == w1.lbs[j];
  }

  lemma FadingDead(w1: World, w2: World, id: nat)
    requires Fading(w1, w2, id)
    ensures forall j: nat :: !LiveAt(w1, j) ==> !LiveAt(w2, j)
  {
  }
}
