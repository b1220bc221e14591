/** The route controller: two remote objects updated in turn, with deferred unwinding on failure. */
module Routes {
  import opened Basics
  import opened Slices
  import opened Resources
  import opened Addresses
  import opened Neutron
  import opened RouteEffects

  /** What a deferred call will send: the slice is read when the call runs, not when it is deferred. */
  datatype Unwinder = RevertRoutes(routes: Slice<Route>) | RevertPairs(port: string, pairs: Slice<Pair>) {
    ghost predicate Valid() {
      match this
      case RevertRoutes(s) => s.Valid()
      case RevertPairs(_, s) => s.Valid()
    }

    ghost function Cells(): set<object> {
      match this
      case RevertRoutes(s) => {s.arr}
      case RevertPairs(_, s) => {s.arr}
    }

    /** `e` sends what the slice holds now. */
    ghost predicate Sends(e: Write)
      requires Valid()
      reads Cells()
    {
      match this
      case RevertRoutes(s) => e.RouterPut? && e.routes == s.View()
      case RevertPairs(id, s) => e.PortPut? && e.port == id && e.pairs == s.View()
    }
  }

  /** A flag shared by all deferred calls of one transaction. */
  class Caller {
    var armed: bool

    constructor ()
      ensures armed
    {
      armed := true;
    }

    method Disarm()
      modifies this
      ensures !armed
    {
      armed := false;
    }

    method Call(network: Network, u: Unwinder) returns (ghost log: seq<Write>)
      requires u.Valid()
      modifies network
      ensures network.log == old(network.log) + log && network.net == Replay(old(network.net), log)
      ensures network.calls == old(network.calls) + |log|
      ensures if armed then |log| == 1 && u.Sends(log[0]) && Answered(log[0], network.answers(old(network.calls)))
              else log == []
    {
      log := [];
      if armed {
        ghost var e;
        var ok;
        match u {
          case RevertRoutes(routes) => ok, e := network.UpdateRouter(routes);
          case RevertPairs(port, pairs) => ok, e := network.UpdatePort(port, pairs);
        }
        log := [e];
        ReplayOne(old(network.net), e);
      }
    }
  }

  predicate Answered(e: Write, answer: Answer) {
    e.applied == !answer.Refused? && e.acked == answer.Done?
  }

  /** Runs the deferred calls, last first: each sends one write if the flag is still armed, none otherwise. */
  method RunDeferred(onFailure: Caller, network: Network, deferred: seq<Unwinder>) returns (ghost log: seq<Write>)
    requires forall u :: u in deferred ==> u.Valid()
    modifies network
    ensures network.log == old(network.log) + log && network.net == Replay(old(network.net), log)
    ensures network.calls == old(network.calls) + |log|
    ensures |log| == if onFailure.armed then |deferred| else 0
    ensures forall i :: 0 <= i < |log| ==>
              && deferred[|deferred| - 1 - i].Valid()
              && deferred[|deferred| - 1 - i].Sends(log[i])
              && Answered(log[i], network.answers(old(network.calls) + i))
    decreases |deferred|
  {
    hide Replay, Answered, Effect;
    log := [];
    ReplayNone(network.net);
    if deferred != [] {
      log := onFailure.Call(network, deferred[|deferred| - 1]);
      ghost var rest := RunDeferred(onFailure, network, deferred[..|deferred| - 1]);
      ReplayAppend(old(network.net), log, rest);
      log := log + rest;
    }
  }

  class RouteController {
    const compute: Compute
    const network: Network
    const opts: NetworkingOpts
    /** Stands for net.ParseCIDR(cidr) giving an address whose To4() is nil. */
    const isCIDRv6: string -> bool
    /** Stands for strings.ToLower. */
    const lower: string -> string

    constructor (compute0: Compute, network0: Network, opts0: NetworkingOpts, isCIDRv60: string -> bool,
                 lower0: string -> string)
      ensures compute == compute0 && network == network0 && opts == opts0
      ensures isCIDRv6 == isCIDRv60 && lower == lower0
    {
      compute, network, opts, isCIDRv6, lower := compute0, network0, opts0, isCIDRv60, lower0;
    }

    /** Lists the router's routes, each with the node that owns its next hop. */
    method ListRoutes() returns (r: Result<seq<CloudRoute>>)
      modifies network`calls
      ensures r.Success? ==>
                && Decodable(compute.servers, opts)
                && r.value == ListedAll(network.net.routes, NamesByAddr(compute.servers, opts, lower))
      ensures r.Success? ==>
                && |r.value| == |network.net.routes|
                && forall k :: 0 <= k < |r.value| ==>
                     ListedFor(compute.servers, opts, lower, network.net.routes[k], r.value[k])
      ensures compute.reliable ==>
                (r.Success? <==>
                 (forall s :: s in compute.servers ==> s.addresses.Some?) && network.answers(old(network.calls)).Done?)
    {
      hide NodeAddressesOf, Decodable, NamesByAddr, ListedFor, Listed;
      UndecodableFails(compute.servers, opts);
      DecodableMeaning(compute.servers, opts);
      var nodeNamesByAddr := CollectNames();
      if nodeNamesByAddr.Fail? {
        return Fail(nodeNamesByAddr.error);
      }
      var fetched := network.GetRouter();
      if fetched.Err? {
        return Fail(ErrApi(fetched.error));
      }
      var items := fetched.value.arr[..fetched.value.len];
      var routes: seq<CloudRoute> := [];
      for i := 0 to |items|
        invariant routes == ListedAll(items[..i], nodeNamesByAddr.value)
      {
        assert items[..i + 1][..i] == items[..i];
        routes := routes + [Listed(items[i], nodeNamesByAddr.value)];
      }
      assert items[..|items|] == items;
      forall k | 0 <= k < |items|
        ensures |routes| == |items| && ListedFor(compute.servers, opts, lower, items[k], routes[k])
      {
        BlackholeExactly(compute.servers, opts, lower, items, k);
      }
      assert items == [] ==> routes == [];
      return Success(routes);
    }

    /** Visits every server; a later server takes over an address from an earlier one. */
    method CollectNames() returns (r: Result<map<string, string>>)
      ensures r.Success? ==>
                Decodable(compute.servers, opts) && r.value == NamesByAddr(compute.servers, opts, lower)
      ensures compute.reliable ==> (r.Success? <==> Decodable(compute.servers, opts))
    {
      hide NodeAddressesOf, WithNames, Decodable;
      var names: map<string, string> := map[];
      var servers := compute.servers;
      DecodableNone(opts);
      for i := 0 to |servers|
        invariant Decodable(servers[..i], opts) && names == NamesByAddr(servers[..i], opts, lower)
      {
        if !compute.reliable {
          if * { return Fail(ErrApi(Failure)); }
        }
        var addrs := NodeAddresses(servers[i], opts);
        if addrs.Fail? {
          DecodableMeaning(servers, opts);
          assert servers[i] in servers;
          return Fail(addrs.error);
        }
        NamesNext(servers, opts, lower, i);
        names := AddNames(names, addrs.value, lower(servers[i].name));
      }
      assert servers[..|servers|] == servers;
      return Success(names);
    }

    ghost function Hop(route: CloudRoute): Result<string> {
      compute.HopOf(route.targetNode, isCIDRv6(route.cidr), opts)
    }

    /** The port behind the next hop of a route's node, when there is a next hop. */
    ghost function PortFor(route: CloudRoute, hop: Result<string>): Result<string> {
      match hop
      case Fail(e) => Fail(e)
      case Success(addr) => compute.PortOf(route.targetNode, addr)
    }

    /** The address that DeleteRoute looks for. */
    ghost function DeleteHop(route: CloudRoute): Result<string> {
      if route.blackhole then Success("") else Hop(route)
    }

    method AddNames(before: map<string, string>, addrs: seq<NodeAddress>, name: string)
      returns (names: map<string, string>)
      ensures names == WithNames(before, addrs, name)
    {
      names := before;
      for j := 0 to |addrs|
        invariant names == WithNames(before, addrs[..j], name)
      {
        assert addrs[..j + 1][..j] == addrs[..j];
        names := names[addrs[j].address := name];
      }
      assert addrs[..|addrs|] == addrs;
    }

    /** Sends new routes; the unwinder keeps the fetched slice, which shares its array. */
    method UpdateRoutes(router: Slice<Route>, newRoutes: Slice<Route>)
      returns (u: Option<Unwinder>, ghost log: seq<Write>)
      requires router.Valid() && newRoutes.Valid()
      modifies network
      ensures network.log == old(network.log) + log && network.calls == old(network.calls) + 1
      ensures log == [PutRoutes(newRoutes.View(), network.answers(old(network.calls)))]
      ensures network.net == Effect(old(network.net), log[0])
      ensures u == if log[0].acked then Some(RevertRoutes(router)) else None
    {
      var origRoutes := router;
      ghost var e;
      var ok;
      ok, e := network.UpdateRouter(newRoutes);
      log := [e];
      u := if ok then Some(RevertRoutes(origRoutes)) else None;
    }

    method UpdateAllowedAddressPairs(port: string, fetched: Slice<Pair>, newPairs: Slice<Pair>)
      returns (u: Option<Unwinder>, ghost log: seq<Write>)
      requires fetched.Valid() && newPairs.Valid()
      modifies network
      ensures network.log == old(network.log) + log && network.calls == old(network.calls) + 1
      ensures log == [PutPairs(port, newPairs.View(), network.answers(old(network.calls)))]
      ensures network.net == Effect(old(network.net), log[0])
      ensures u == if log[0].acked then Some(RevertPairs(port, fetched)) else None
    {
      var origPairs := fetched;
      ghost var e;
      var ok;
      ok, e := network.UpdatePort(port, newPairs);
      log := [e];
      u := if ok then Some(RevertPairs(port, origPairs)) else None;
    }

    method HasRoute(routes: Slice<Route>, cidr: string, addr: string) returns (present: bool)
      requires routes.Valid()
      ensures present <==> Route(cidr, addr) in routes.View()
    {
      for i := 0 to routes.len
        invariant Route(cidr, addr) !in routes.arr[..i]
      {
        if routes.arr[i].cidr == cidr && routes.arr[i].nextHop == addr {
          assert routes.arr[i] in routes.View();
          return true;
        }
      }
      return false;
    }

    method FindRoute(routes: Slice<Route>, route: CloudRoute, addr: string) returns (index: nat)
      requires routes.Valid()
      ensures index == DeleteIndex(routes.View(), route, addr)
    {
      for i := 0 to routes.len
        invariant DeleteIndex(routes.View(), route, addr) == i + DeleteIndex(routes.View()[i..], route, addr)
      {
        assert routes.View()[i..][1..] == routes.View()[i + 1..];
        var item := routes.arr[i];
        if item.cidr == route.cidr && (item.nextHop == addr || (route.blackhole && item.nextHop == route.targetNode)) {
          return i;
        }
      }
      return routes.len;
    }

    method FindPair(pairs: Slice<Pair>, ip: string) returns (index: nat)
      requires pairs.Valid()
      ensures index == PairIndex(pairs.View(), ip)
    {
      for i := 0 to pairs.len
        invariant PairIndex(pairs.View(), ip) == i + PairIndex(pairs.View()[i..], ip)
      {
        assert pairs.View()[i..][1..] == pairs.View()[i + 1..];
        if pairs.arr[i].ip == ip {
          return i;
        }
      }
      return pairs.len;
    }

    /** The port behind the next hop, fetched. */
    method FetchPort(route: CloudRoute, addr: string) returns (r: Result<Slice<Pair>>, id: string)
      modifies network`calls
      ensures r.Success? ==>
                && compute.PortOf(route.targetNode, addr) == Success(id) && id in network.net.pairs
                && r.value.Valid() && fresh(r.value.arr) && r.value.View() == network.net.pairs[id]
                && network.calls == old(network.calls) + 1 && network.answers(old(network.calls)).Done?
      ensures compute.reliable ==>
                var port, k := compute.PortOf(route.targetNode, addr), old(network.calls);
                && network.calls == k + (if port.Success? then 1 else 0)
                && (r.Success? <==> port.Success? && network.answers(k).Done? && port.value in network.net.pairs)
    {
      hide Compute.PortOf;
      var portID := compute.GetPortIDByIP(route.targetNode, addr);
      if portID.Fail? {
        return Fail(portID.error), "";
      }
      var port := network.GetPort(portID.value);
      if port.Err? {
        return Fail(ErrApi(port.error)), "";
      }
      return Success(port.value), portID.value;
    }

    /** Makes sure that the port behind the next hop allows the CIDR. */
    method AllowPair(route: CloudRoute, addr: string)
      returns (err: Option<Error>, deferred: seq<Unwinder>, ghost log: seq<Write>)
      modifies network
      ensures network.log == old(network.log) + log
      ensures forall u :: u in deferred ==> u.Valid()
      ensures err.None? ==> PairsChanged(old(network.net), network.net, compute.PortOf(route.targetNode, addr),
                                         route.cidr, true, log)
      ensures err.Some? ==> deferred == [] && PairsFailed(old(network.net), network.net, log, route.cidr, true)
      ensures compute.reliable ==>
                PairsAnswered(old(network.net), compute.PortOf(route.targetNode, addr), route.cidr, true,
                              network.answers, old(network.calls), log, err.None?, network.calls)
    {
      hide Compute.PortOf;
      deferred, log := [], [];
      var port, id := FetchPort(route, addr);
      if port.Fail? {
        return Some(port.error), deferred, log;
      }
      var index := FindPair(port.value, route.cidr);
      if index == port.value.len {
        var newPairs := Append(port.value, Pair(route.cidr, ""));
        var unwind;
        unwind, log := UpdateAllowedAddressPairs(id, port.value, newPairs);
        if unwind.None? {
          return Some(ErrApi(Failure)), deferred, log;
        }
        deferred := [unwind.value];
      }
      return None, deferred, log;
    }

    /** Removes the pair for the CIDR from the port behind the next hop. */
    method RemovePair(route: CloudRoute, addr: string)
      returns (err: Option<Error>, deferred: seq<Unwinder>, ghost log: seq<Write>)
      modifies network
      ensures network.log == old(network.log) + log
      ensures forall u :: u in deferred ==> u.Valid()
      ensures err.None? ==> PairsChanged(old(network.net), network.net, compute.PortOf(route.targetNode, addr),
                                         route.cidr, false, log)
      ensures err.Some? ==> deferred == [] && PairsFailed(old(network.net), network.net, log, route.cidr, false)
      ensures compute.reliable ==>
                PairsAnswered(old(network.net), compute.PortOf(route.targetNode, addr), route.cidr, false,
                              network.answers, old(network.calls), log, err.None?, network.calls)
    {
      hide Compute.PortOf;
      deferred, log := [], [];
      var port, id := FetchPort(route, addr);
      if port.Fail? {
        return Some(port.error), deferred, log;
      }
      var addrPairs := port.value;
      var index := FindPair(addrPairs, route.cidr);
      if index < addrPairs.len {
        addrPairs := DropAt(addrPairs, index);
        var unwind;
        unwind, log := UpdateAllowedAddressPairs(id, port.value, addrPairs);
        if unwind.None? {
          return Some(ErrApi(Failure)), deferred, log;
        }
        deferred := [unwind.value];
      }
      return None, deferred, log;
    }

    /** Creates the route and allows its CIDR on the node's port, or undoes what it did. */
    method CreateRoute(route: CloudRoute) returns (err: Option<Error>, ghost log: seq<Write>)
      modifies network
      ensures network.log == old(network.log) + log
      ensures err.None? ==>
                && Hop(route).Success?
                && CreateDone(old(network.net), network.net, Route(route.cidr, Hop(route).value),
                              compute.PortOf(route.targetNode, Hop(route).value), log)
      ensures err.None? ==>
                exists i: nat :: HopFor(compute.servers, route.targetNode, isCIDRv6(route.cidr), opts, i,
                                        Hop(route).value)
      ensures err.None? && Route(route.cidr, Hop(route).value) !in old(network.net).routes ==>
                var port := compute.PortOf(route.targetNode, Hop(route).value);
                && network.net.routes == old(network.net).routes + [Route(route.cidr, Hop(route).value)]
                && port.Success? && port.value in old(network.net).pairs && port.value in network.net.pairs
                && PairAdded(old(network.net).pairs[port.value], network.net.pairs[port.value], route.cidr)
      ensures err.Some? ==> (network.net == old(network.net) <==> Undone(log))
      ensures err.Some? && log != [] ==>
                && Hop(route).Success?
                && Unwound(old(network.net), network.net, log,
                           old(network.net).routes + [Route(route.cidr, Hop(route).value)], old(network.net).routes,
                           route.cidr, true)
      ensures compute.reliable ==>
                Outcome(log, err.None?) ==
                CreateOutcome(old(network.net), route.cidr, Hop(route), PortFor(route, Hop(route)), network.answers,
                              old(network.calls))
    {
      hide CreateDone, Unwound, Undone, Compute.HopOf, Compute.PortOf, CreateOutcome, SendOutcome, FinishOutcome,
           Effect, Compute.Answers, Unwinder.Sends, PairAdded, HopFor;
      log := [];
      ghost var n0, k := network.net, network.calls;
      CreateStops(n0, route.cidr, Hop(route), PortFor(route, Hop(route)), network.answers, k);
      HopMeaning(compute, route.targetNode, isCIDRv6(route.cidr), opts);
      var onFailure := new Caller();
      var hop := compute.GetAddressByName(route.targetNode, isCIDRv6(route.cidr), opts);
      if hop.Fail? {
        return Some(hop.error), log;
      }
      var addr := hop.value;
      var fetched := network.GetRouter();
      if fetched.Err? {
        return Some(ErrApi(fetched.error)), log;
      }
      var router := fetched.value;
      var present := HasRoute(router, route.cidr, addr);
      if present {
        CreateNothing(n0, Route(route.cidr, addr), compute.PortOf(route.targetNode, addr), network.answers, k);
        return None, log;
      }
      err, log := SendCreate(route, addr, onFailure, router);
      if err.None? {
        CreateMeaning(n0, network.net, Route(route.cidr, addr), compute.PortOf(route.targetNode, addr), log);
      }
    }

    /** The rest of CreateRoute once the route is known to be missing. */
    method SendCreate(route: CloudRoute, addr: string, onFailure: Caller, router: Slice<Route>)
      returns (err: Option<Error>, ghost log: seq<Write>)
      requires onFailure.armed && router.Valid() && router.View() == network.net.routes
      requires Route(route.cidr, addr) !in network.net.routes
      requires network.calls > 0 && network.answers(network.calls - 1).Done?
      modifies network, onFailure, router.arr
      ensures network.log == old(network.log) + log
      ensures err.None? ==>
                CreateDone(old(network.net), network.net, Route(route.cidr, addr),
                           compute.PortOf(route.targetNode, addr), log)
      ensures err.Some? ==> log != [] && (network.net == old(network.net) <==> Undone(log))
      ensures err.Some? ==>
                Unwound(old(network.net), network.net, log, old(network.net).routes + [Route(route.cidr, addr)],
                        old(network.net).routes, route.cidr, true)
      ensures compute.reliable ==>
                Outcome(log, err.None?) ==
                CreateOutcome(old(network.net), route.cidr, Success(addr), compute.PortOf(route.targetNode, addr),
                              network.answers, old(network.calls) - 1)
    {
      hide CreateDone, Unwound, Undone, Compute.PortOf, CreateOutcome, SendOutcome, FinishOutcome, Effect,
           Unwinder.Sends;
      ghost var n0, k, port := network.net, network.calls - 1, compute.PortOf(route.targetNode, addr);
      var routes := Append(router, Route(route.cidr, addr));
      var unwind;
      unwind, log := UpdateRoutes(router, routes);
      CreateSent(n0, network.net, Route(route.cidr, addr), port, network.answers, k, log);
      if unwind.None? {
        return Some(ErrApi(Failure)), log;
      }
      ghost var more;
      err, more := FinishCreate(route, addr, onFailure, unwind.value, n0);
      log := log + more;
      CreateFinished(n0, network.net, Route(route.cidr, addr), port, network.answers, k, more, err.None?);
    }

    /** The rest of CreateRoute once its first unwinder is deferred, deferred calls included. */
    method FinishCreate(route: CloudRoute, addr: string, onFailure: Caller, unwind: Unwinder, ghost n0: Net)
      returns (err: Option<Error>, ghost log: seq<Write>)
      requires onFailure.armed
      requires unwind.RevertRoutes? && unwind.Valid() && unwind.routes.View() == n0.routes
      requires Route(route.cidr, addr) !in n0.routes
      requires network.net == n0.(routes := n0.routes + [Route(route.cidr, addr)])
      modifies network, onFailure
      ensures network.log == old(network.log) + log
      ensures err.None? ==>
                CreateDone(n0, network.net, Route(route.cidr, addr), compute.PortOf(route.targetNode, addr),
                           [RouterPut(n0.routes + [Route(route.cidr, addr)], true, true)] + log)
      ensures err.Some? ==>
                && log != []
                && Unwound(n0, network.net, [RouterPut(n0.routes + [Route(route.cidr, addr)], true, true)] + log,
                           n0.routes + [Route(route.cidr, addr)], n0.routes, route.cidr, true)
      ensures compute.reliable ==>
                Outcome(log, err.None?) == FinishOutcome(n0, n0.routes, compute.PortOf(route.targetNode, addr),
                                                         route.cidr, true, network.answers, old(network.calls))
    {
      hide Unwound, CreateDone, PairsChanged, PairsFailed, Compute.PortOf, FinishOutcome, PairsAnswered;
      ghost var n1, k := network.net, network.calls;
      var deferred := [unwind];
      var extra;
      ghost var more;
      err, extra, more := AllowPair(route, addr);
      ghost var n2 := network.net;
      deferred := deferred + extra;
      if err.None? {
        onFailure.Disarm();
        CreatedAfterPairs(n0, n1, n2, Route(route.cidr, addr), compute.PortOf(route.targetNode, addr), more);
      }
      ghost var k' := network.calls;
      ghost var undo := RunDeferred(onFailure, network, deferred);
      log := more + undo;
      Unwinding(n0, n1, n2, network.net, n0.routes, route.cidr, true, more, undo, err.None?,
                compute.PortOf(route.targetNode, addr), network.answers, k, k', compute.reliable);
    }

    /** Deletes the route and the pair for its CIDR; a failure unwinds with what is left of the fetched list. */
    method DeleteRoute(route: CloudRoute) returns (err: Option<Error>, ghost log: seq<Write>)
      modifies network
      ensures network.log == old(network.log) + log
      ensures err.None? ==>
                && DeleteHop(route).Success?
                && DeleteDone(old(network.net), network.net, route, DeleteHop(route).value,
                              compute.PortOf(route.targetNode, DeleteHop(route).value), log)
      ensures err.None? ==>
                if route.blackhole then DeleteHop(route).value == ""
                else exists i: nat :: HopFor(compute.servers, route.targetNode, isCIDRv6(route.cidr), opts, i,
                                             DeleteHop(route).value)
      ensures err.None? && (exists item :: item in old(network.net).routes
                                           && Carries(item, route, DeleteHop(route).value)) ==>
                && RouteRemoved(old(network.net).routes, network.net.routes, route, DeleteHop(route).value)
                && var port := compute.PortOf(route.targetNode, DeleteHop(route).value);
                && (!route.blackhole ==>
                      && port.Success? && port.value in old(network.net).pairs && port.value in network.net.pairs
                      && PairRemoved(old(network.net).pairs[port.value], network.net.pairs[port.value], route.cidr))
      ensures err.Some? && log != [] ==>
                && DeleteHop(route).Success?
                && var routes := old(network.net).routes;
                && var i := DeleteIndex(routes, route, DeleteHop(route).value);
                && i < |routes|
                && Unwound(old(network.net), network.net, log, SwapRemove(routes, i), routes[i := routes[|routes| - 1]],
                           route.cidr, false)
      ensures err.Some? ==>
                (network.net == old(network.net) <==>
                 Undone(log) &&
                 (|log| >= 2 ==> LastDeleted(old(network.net).routes, route, DeleteHop(route).value)))
      ensures route.blackhole ==> network.net.pairs == old(network.net).pairs
      ensures compute.reliable ==>
                Outcome(log, err.None?) == DeleteOutcome(old(network.net), route, DeleteHop(route),
                                                         PortFor(route, DeleteHop(route)), network.answers,
                                                         old(network.calls))
    {
      hide DeleteDone, Unwound, Undone, LastDeleted, Compute.HopOf, Compute.PortOf, SwapRemove, DeleteIndex,
           DeleteOutcome, SendOutcome, FinishOutcome, HopFor, RouteRemoved, PairRemoved;
      log := [];
      ghost var n0, k := network.net, network.calls;
      DeleteStops(n0, route, DeleteHop(route), PortFor(route, DeleteHop(route)), network.answers, k);
      HopMeaning(compute, route.targetNode, isCIDRv6(route.cidr), opts);
      var onFailure := new Caller();
      var addr := "";
      if !route.blackhole {
        var hop := compute.GetAddressByName(route.targetNode, isCIDRv6(route.cidr), opts);
        if hop.Fail? {
          return Some(hop.error), log;
        }
        addr := hop.value;
      }
      var fetched := network.GetRouter();
      if fetched.Err? {
        return Some(ErrApi(fetched.error)), log;
      }
      var router := fetched.value;
      var index := FindRoute(router, route, addr);
      if index == router.len {
        DeleteNothing(n0, route, addr, compute.PortOf(route.targetNode, addr), network.answers, k);
        NothingCarries(n0.routes, route, addr);
        return None, log;
      }
      err, log := SendDelete(route, addr, onFailure, router, index);
      if err.None? {
        DeleteMeaning(n0, network.net, route, addr, compute.PortOf(route.targetNode, addr), log);
      }
    }

    /** The rest of DeleteRoute once the entry to delete is known. */
    method SendDelete(route: CloudRoute, addr: string, onFailure: Caller, router: Slice<Route>, index: nat)
      returns (err: Option<Error>, ghost log: seq<Write>)
      requires onFailure.armed && router.Valid() && router.View() == network.net.routes
      requires index == DeleteIndex(network.net.routes, route, addr) && index < router.len
      requires network.calls > 0 && network.answers(network.calls - 1).Done?
      modifies network, onFailure, router.arr
      ensures network.log == old(network.log) + log
      ensures err.None? ==>
                DeleteDone(old(network.net), network.net, route, addr, compute.PortOf(route.targetNode, addr), log)
      ensures err.Some? ==>
                var routes := old(network.net).routes;
                && log != []
                && Unwound(old(network.net), network.net, log, SwapRemove(routes, index),
                           routes[index := routes[|routes| - 1]], route.cidr, false)
                && (network.net == old(network.net) <==>
                    Undone(log) && (|log| >= 2 ==> LastDeleted(routes, route, addr)))
      ensures route.blackhole ==> network.net.pairs == old(network.net).pairs
      ensures compute.reliable ==>
                Outcome(log, err.None?) ==
                DeleteOutcome(old(network.net), route, Success(addr), compute.PortOf(route.targetNode, addr),
                              network.answers, old(network.calls) - 1)
    {
      hide DeleteDone, Unwound, Undone, LastDeleted, Compute.PortOf, SwapRemove, DeleteIndex, DeleteOutcome,
           SendOutcome, FinishOutcome, Unwinder.Sends;
      ghost var n0, k, port := network.net, network.calls - 1, compute.PortOf(route.targetNode, addr);
      var routes := DropAt(router, index);
      var unwind;
      unwind, log := UpdateRoutes(router, routes);
      DeleteSent(n0, network.net, route, addr, port, network.answers, k, log);
      if unwind.None? || route.blackhole {
        return if unwind.None? then Some(ErrApi(Failure)) else None, log;
      }
      ghost var more;
      err, more := FinishDelete(route, addr, onFailure, unwind.value, n0);
      log := log + more;
      DeleteFinished(n0, network.net, route, addr, port, network.answers, k, more, err.None?);
    }

    /** The rest of DeleteRoute once its first unwinder is deferred, deferred calls included. */
    method FinishDelete(route: CloudRoute, addr: string, onFailure: Caller, unwind: Unwinder, ghost n0: Net)
      returns (err: Option<Error>, ghost log: seq<Write>)
      requires onFailure.armed && !route.blackhole
      requires unwind.RevertRoutes? && unwind.Valid()
      requires DeleteIndex(n0.routes, route, addr) < |n0.routes|
      requires unwind.routes.View() == n0.routes[DeleteIndex(n0.routes, route, addr) := n0.routes[|n0.routes| - 1]]
      requires network.net == n0.(routes := SwapRemove(n0.routes, DeleteIndex(n0.routes, route, addr)))
      modifies network, onFailure
      ensures network.log == old(network.log) + log
      ensures err.None? ==> DeleteDone(n0, network.net, route, addr, compute.PortOf(route.targetNode, addr),
                                       [RouterPut(old(network.net).routes, true, true)] + log)
      ensures err.Some? ==>
                && log != []
                && Unwound(n0, network.net, [RouterPut(old(network.net).routes, true, true)] + log,
                           old(network.net).routes, unwind.routes.View(), route.cidr, false)
      ensures compute.reliable ==>
                Outcome(log, err.None?) ==
                FinishOutcome(n0, unwind.routes.View(), compute.PortOf(route.targetNode, addr), route.cidr, false,
                              network.answers, old(network.calls))
    {
      hide Unwound, DeleteDone, PairsChanged, PairsFailed, SwapRemove, DeleteIndex, Compute.PortOf, FinishOutcome,
           PairsAnswered;
      ghost var n1, k, back := network.net, network.calls, unwind.routes.View();
      var deferred := [unwind];
      var extra;
      ghost var more;
      err, extra, more := RemovePair(route, addr);
      ghost var n2 := network.net;
      deferred := deferred + extra;
      if err.None? {
        onFailure.Disarm();
        DeletedAfterPairs(n0, n1, n2, route, addr, compute.PortOf(route.targetNode, addr), more);
      }
      ghost var k' := network.calls;
      ghost var undo := RunDeferred(onFailure, network, deferred);
      log := more + undo;
      Unwinding(n0, n1, n2, network.net, back, route.cidr, false, more, undo, err.None?,
                compute.PortOf(route.targetNode, addr), network.answers, k, k', compute.reliable);
    }
  }

  /** The pair step, answered as told from request `k` on, wrote `log` and went on to request `k'`. */
  ghost predicate PairsAnswered(n: Net, port: Result<string>, cidr: string, adding: bool,
                                answers: nat -> Answer, k: nat, log: seq<Write>, ok: bool, k': nat) {
    if port.Fail? then log == [] && !ok && k' == k
    else if !answers(k).Done? || port.value !in n.pairs then log == [] && !ok && k' == k + 1
    else
      var before := n.pairs[port.value];
      var pairs := if adding then WithPair(before, cidr) else WithoutPair(before, cidr);
      if pairs == before then log == [] && ok && k' == k + 1
      else
        var put := PutPairs(port.value, pairs, answers(k + 1));
        log == [put] && ok == put.acked && k' == k + 2
  }

  /** What the deferred calls make of the pair step: nothing after a success, else one undo of the routes. */
  lemma Unwinding(n0: Net, n1: Net, n2: Net, n3: Net, back: seq<Route>, cidr: string, adding: bool, more: seq<Write>,
                  undo: seq<Write>, ok: bool, port: Result<string>,
                  answers: nat -> Answer, k: nat, k': nat, reliable: bool)
    requires n1 == n0.(routes := n1.routes) && n3 == Replay(n2, undo)
    requires if ok then undo == []
             else PairsFailed(n1, n2, more, cidr, adding) && undo == [PutRoutes(back, answers(k'))]
    requires reliable ==> PairsAnswered(n1, port, cidr, adding, answers, k, more, ok, k')
    ensures ok ==> n3 == n2 && more + undo == more
    ensures !ok ==> Unwound(n0, n3, [RouterPut(n1.routes, true, true)] + (more + undo), n1.routes, back, cidr, adding)
    ensures reliable ==> Outcome(more + undo, ok) == FinishOutcome(n0, back, port, cidr, adding, answers, k)
  {
    hide Unwound, PairsFailed, FinishOutcome, PairsAnswered;
    if !ok {
      ReplayOne(n2, undo[0]);
      UnwoundAfterPairs(n0, n1, n2, n3, more, undo[0], n1.routes, back, cidr, adding);
      assert [RouterPut(n1.routes, true, true)] + more + undo == [RouterPut(n1.routes, true, true)] + (more + undo);
    }
    if reliable {
      FinishAnswered(n0, n1, back, port, cidr, adding, answers, k, more, ok, k');
    }
  }

  lemma FinishAnswered(n0: Net, n1: Net, back: seq<Route>, port: Result<string>, cidr: string, adding: bool,
                       answers: nat -> Answer, k: nat, more: seq<Write>, ok: bool, k': nat)
    requires n1 == n0.(routes := n1.routes) && PairsAnswered(n1, port, cidr, adding, answers, k, more, ok, k')
    ensures FinishOutcome(n0, back, port, cidr, adding, answers, k) ==
            Outcome(more + if ok then [] else [PutRoutes(back, answers(k'))], ok)
  {
  }

  lemma NothingCarries(routes: seq<Route>, route: CloudRoute, addr: string)
    requires DeleteIndex(routes, route, addr) == |routes|
    ensures forall item :: item in routes ==> !Carries(item, route, addr)
  {
    DeleteIndexMeaning(routes, route, addr);
  }

  /** How CreateRoute ends: without a write, ... */
  lemma CreateStops(n0: Net, cidr: string, hop: Result<string>, port: Result<string>, answers: nat -> Answer, k: nat)
    ensures Undone([])
    ensures hop.Fail? || !answers(k).Done? ==> CreateOutcome(n0, cidr, hop, port, answers, k) == Outcome([], false)
  {
  }

  lemma CreateNothing(n: Net, x: Route, port: Result<string>, answers: nat -> Answer, k: nat)
    requires x in n.routes && answers(k).Done?
    ensures CreateDone(n, n, x, port, [])
    ensures CreateOutcome(n, x.cidr, Success(x.nextHop), port, answers, k) == Outcome([], true)
  {
  }

  /** ... with one write that was not acknowledged, ... */
  lemma CreateSent(n0: Net, n1: Net, x: Route, port: Result<string>, answers: nat -> Answer, k: nat, log: seq<Write>)
    requires x !in n0.routes && answers(k).Done?
    requires log == [PutRoutes(n0.routes + [x], answers(k + 1))] && n1 == Effect(n0, log[0])
    ensures log[0].acked ==> n1 == n0.(routes := n0.routes + [x]) && log == [RouterPut(n0.routes + [x], true, true)]
    ensures !log[0].acked ==>
              && Unwound(n0, n1, log, n0.routes + [x], n0.routes, x.cidr, true) && (n1 == n0 <==> Undone(log))
              && CreateOutcome(n0, x.cidr, Success(x.nextHop), port, answers, k) == Outcome(log, false)
  {
  }

  /** ... or with all the rest. */
  lemma CreateFinished(n0: Net, n: Net, x: Route, port: Result<string>,
                       answers: nat -> Answer, k: nat, more: seq<Write>, ok: bool)
    requires x !in n0.routes && answers(k).Done? && answers(k + 1).Done?
    ensures var log := [RouterPut(n0.routes + [x], true, true)] + more;
            && (Unwound(n0, n, log, n0.routes + [x], n0.routes, x.cidr, true) ==> (n == n0 <==> Undone(log)))
            && (Outcome(more, ok) == FinishOutcome(n0, n0.routes, port, x.cidr, true, answers, k + 2) ==>
                  CreateOutcome(n0, x.cidr, Success(x.nextHop), port, answers, k) == Outcome(log, ok))
  {
    hide Unwound, Undone, FinishOutcome;
    var log := [RouterPut(n0.routes + [x], true, true)] + more;
    if Unwound(n0, n, log, n0.routes + [x], n0.routes, x.cidr, true) {
      CreateAllOrNothing(n0, n, log, x);
    }
  }

  /** How DeleteRoute ends: likewise. */
  lemma DeleteStops(n0: Net, route: CloudRoute, hop: Result<string>, port: Result<string>,
                    answers: nat -> Answer, k: nat)
    ensures Undone([])
    ensures hop.Fail? || !answers(k).Done? ==> DeleteOutcome(n0, route, hop, port, answers, k) == Outcome([], false)
  {
  }

  lemma DeleteNothing(n: Net, route: CloudRoute, addr: string, port: Result<string>, answers: nat -> Answer, k: nat)
    requires DeleteIndex(n.routes, route, addr) == |n.routes| && answers(k).Done?
    ensures DeleteDone(n, n, route, addr, port, [])
    ensures DeleteOutcome(n, route, Success(addr), port, answers, k) == Outcome([], true)
  {
  }

  lemma DeleteSent(n0: Net, n1: Net, route: CloudRoute, addr: string, port: Result<string>,
                   answers: nat -> Answer, k: nat, log: seq<Write>)
    requires DeleteIndex(n0.routes, route, addr) < |n0.routes| && answers(k).Done?
    requires log == [PutRoutes(SwapRemove(n0.routes, DeleteIndex(n0.routes, route, addr)), answers(k + 1))]
    requires n1 == Effect(n0, log[0])
    ensures var i := DeleteIndex(n0.routes, route, addr);
            if log[0].acked then
              && n1 == n0.(routes := SwapRemove(n0.routes, i)) && log == [RouterPut(n1.routes, true, true)]
              && (route.blackhole ==> DeleteDone(n0, n1, route, addr, port, log))
            else
              && Unwound(n0, n1, log, SwapRemove(n0.routes, i), n0.routes[i := n0.routes[|n0.routes| - 1]], route.cidr,
                         false)
              && (n1 == n0 <==> Undone(log))
    ensures !log[0].acked || route.blackhole ==>
              DeleteOutcome(n0, route, Success(addr), port, answers, k) == Outcome(log, log[0].acked)
  {
    hide DeleteIndex;
  }

  lemma DeleteFinished(n0: Net, n: Net, route: CloudRoute, addr: string, port: Result<string>,
                       answers: nat -> Answer, k: nat, more: seq<Write>, ok: bool)
    requires DeleteIndex(n0.routes, route, addr) < |n0.routes| && !route.blackhole
    requires answers(k).Done? && answers(k + 1).Done? && (ok || more != [])
    ensures var i := DeleteIndex(n0.routes, route, addr);
            var back := n0.routes[i := n0.routes[|n0.routes| - 1]];
            var log := [RouterPut(SwapRemove(n0.routes, i), true, true)] + more;
            && (!ok && Unwound(n0, n, log, SwapRemove(n0.routes, i), back, route.cidr, false) ==>
                  (n == n0 <==> Undone(log) && LastDeleted(n0.routes, route, addr)))
            && (Outcome(more, ok) == FinishOutcome(n0, back, port, route.cidr, false, answers, k + 2) ==>
                  DeleteOutcome(n0, route, Success(addr), port, answers, k) == Outcome(log, ok))
  {
    hide Unwound, Undone, FinishOutcome, DeleteIndex, SwapRemove;
    var i := DeleteIndex(n0.routes, route, addr);
    var back := n0.routes[i := n0.routes[|n0.routes| - 1]];
    var log := [RouterPut(SwapRemove(n0.routes, i), true, true)] + more;
    if !ok && Unwound(n0, n, log, SwapRemove(n0.routes, i), back, route.cidr, false) {
      DeleteUndoExactly(n0, n, log, i, route.cidr);
    }
  }

  function WithNames(names: map<string, string>, addrs: seq<NodeAddress>, name: string): map<string, string> {
    if addrs == [] then names
    else WithNames(names, addrs[..|addrs| - 1], name)[addrs[|addrs| - 1].address := name]
  }

  ghost predicate Decodable(servers: seq<Server>, opts: NetworkingOpts) {
    forall s :: s in servers ==> NodeAddressesOf(s, opts).Success?
  }

  lemma DecodableMeaning(servers: seq<Server>, opts: NetworkingOpts)
    ensures Decodable(servers, opts) <==> forall s :: s in servers ==> NodeAddressesOf(s, opts).Success?
  {
  }

  ghost predicate Owns(srv: Server, opts: NetworkingOpts, addr: string) {
    NodeAddressesOf(srv, opts).Success? && exists a :: a in NodeAddressesOf(srv, opts).value && a.address == addr
  }

  /** Address to node name, as built by visiting the servers in order. */
  ghost function NamesByAddr(servers: seq<Server>, opts: NetworkingOpts, lower: string -> string): map<string, string>
    requires Decodable(servers, opts)
  {
    if servers == [] then map[]
    else
      var last := servers[|servers| - 1];
      WithNames(NamesByAddr(servers[..|servers| - 1], opts, lower), NodeAddressesOf(last, opts).value, lower(last.name))
  }

  lemma DecodableNone(opts: NetworkingOpts)
    ensures Decodable([], opts)
  {
  }

  lemma NamesNext(servers: seq<Server>, opts: NetworkingOpts, lower: string -> string, i: nat)
    requires i < |servers| && Decodable(servers[..i], opts) && NodeAddressesOf(servers[i], opts).Success?
    ensures Decodable(servers[..i + 1], opts)
    ensures NamesByAddr(servers[..i + 1], opts, lower) ==
            WithNames(NamesByAddr(servers[..i], opts, lower), NodeAddressesOf(servers[i], opts).value,
                      lower(servers[i].name))
  {
    hide NodeAddressesOf, WithNames;
    assert servers[..i + 1] == servers[..i] + [servers[i]];
    assert servers[..i + 1][..i] == servers[..i];
  }

  lemma {:induction false} WithNamesMeaning(names: map<string, string>, addrs: seq<NodeAddress>, name: string,
                                            addr: string)
    ensures var m := WithNames(names, addrs, name);
            if exists a :: a in addrs && a.address == addr then addr in m && m[addr] == name
            else (addr in m <==> addr in names) && (addr in m ==> m[addr] == names[addr])
  {
    if addrs != [] {
      WithNamesMeaning(names, addrs[..|addrs| - 1], name, addr);
      assert addrs == addrs[..|addrs| - 1] + [addrs[|addrs| - 1]];
    }
  }

  ghost predicate LastOwner(servers: seq<Server>, opts: NetworkingOpts, addr: string, i: nat)
    requires i < |servers|
  {
    Owns(servers[i], opts, addr) && forall j :: i < j < |servers| ==> !Owns(servers[j], opts, addr)
  }

  ghost predicate Owned(servers: seq<Server>, opts: NetworkingOpts, addr: string) {
    exists i :: 0 <= i < |servers| && Owns(servers[i], opts, addr)
  }

  lemma OwnsWithNames(names: map<string, string>, srv: Server, opts: NetworkingOpts, name: string, addr: string)
    requires NodeAddressesOf(srv, opts).Success?
    ensures var m := WithNames(names, NodeAddressesOf(srv, opts).value, name);
            if Owns(srv, opts, addr) then addr in m && m[addr] == name
            else (addr in m <==> addr in names) && (addr in m ==> m[addr] == names[addr])
  {
    hide NodeAddressesOf;
    WithNamesMeaning(names, NodeAddressesOf(srv, opts).value, name, addr);
  }

  /** An address is known exactly when a listed server owns it. */
  lemma {:induction false} NamesByAddrOwned(servers: seq<Server>, opts: NetworkingOpts,
                                            lower: string -> string, addr: string)
    requires Decodable(servers, opts)
    ensures addr in NamesByAddr(servers, opts, lower) <==> Owned(servers, opts, addr)
  {
    hide NodeAddressesOf, WithNames, Owns;
    if servers != [] {
      var n := |servers| - 1;
      var front, last := servers[..n], servers[n];
      NamesByAddrOwned(front, opts, lower, addr);
      OwnsWithNames(NamesByAddr(front, opts, lower), last, opts, lower(last.name), addr);
      if Owned(front, opts, addr) {
        var i :| 0 <= i < n && Owns(front[i], opts, addr);
        assert Owns(servers[i], opts, addr);
      }
    }
  }

  /** A known address is listed under the name of the last server that owns it. */
  lemma {:induction false} NamesByAddrLast(servers: seq<Server>, opts: NetworkingOpts,
                                           lower: string -> string, addr: string, i: nat)
    requires Decodable(servers, opts) && i < |servers| && LastOwner(servers, opts, addr, i)
    ensures addr in NamesByAddr(servers, opts, lower)
    ensures NamesByAddr(servers, opts, lower)[addr] == lower(servers[i].name)
  {
    hide NodeAddressesOf, WithNames, Owns;
    var n := |servers| - 1;
    var front, last := servers[..n], servers[n];
    if i < n {
      assert forall j :: i < j < n ==> front[j] == servers[j];
      NamesByAddrLast(front, opts, lower, addr, i);
    }
    OwnsWithNames(NamesByAddr(front, opts, lower), last, opts, lower(last.name), addr);
  }

  function Listed(item: Route, names: map<string, string>): CloudRoute {
    if item.nextHop in names then CloudRoute(item.cidr, names[item.nextHop], false)
    else CloudRoute(item.cidr, item.nextHop, true)
  }

  function ListedAll(items: seq<Route>, names: map<string, string>): seq<CloudRoute> {
    if items == [] then [] else ListedAll(items[..|items| - 1], names) + [Listed(items[|items| - 1], names)]
  }

  lemma {:induction false} ListedAllAt(items: seq<Route>, names: map<string, string>, k: nat)
    requires k < |items|
    ensures |ListedAll(items, names)| == |items| && ListedAll(items, names)[k] == Listed(items[k], names)
  {
    if k < |items| - 1 {
      ListedAllAt(items[..|items| - 1], names, k);
    } else if k > 0 {
      ListedAllAt(items[..|items| - 1], names, 0);
    }
  }

  /** A server owns an address exactly when it reports it, under any type. */
  lemma OwnsMeaning(srv: Server, opts: NetworkingOpts, addr: string)
    ensures Owns(srv, opts, addr) <==> srv.addresses.Some? && exists kind :: Reports(srv, opts, kind, addr)
  {
    hide Candidates, Dedup, Reports;
    if srv.addresses.Some? {
      AddressesMeaning(srv, opts);
      var list := NodeAddressesOf(srv, opts).value;
      assert forall kind :: Reports(srv, opts, kind, addr) <==> NodeAddress(kind, addr) in list;
      assert forall a :: a in list && a.address == addr ==> a == NodeAddress(a.kind, addr);
    }
  }

  lemma {:induction false} LastOwnerExists(servers: seq<Server>, opts: NetworkingOpts, addr: string) returns (i: nat)
    requires Owned(servers, opts, addr)
    ensures i < |servers| && LastOwner(servers, opts, addr, i)
  {
    hide Owns;
    var n := |servers| - 1;
    if Owns(servers[n], opts, addr) {
      i := n;
    } else {
      var k :| 0 <= k < |servers| && Owns(servers[k], opts, addr);
      assert servers[..n][k] == servers[k];
      i := LastOwnerExists(servers[..n], opts, addr);
      assert forall j :: i < j < n ==> servers[..n][j] == servers[j];
    }
  }

  /** A route is listed with the lower-cased name of the last server that owns its next hop, or else as an orphan. */
  ghost predicate ListedFor(servers: seq<Server>, opts: NetworkingOpts,
                            lower: string -> string, item: Route, listed: CloudRoute)
  {
    if Owned(servers, opts, item.nextHop) then
      exists i: nat :: i < |servers| && LastOwner(servers, opts, item.nextHop, i)
                       && listed == CloudRoute(item.cidr, lower(servers[i].name), false)
    else listed == CloudRoute(item.cidr, item.nextHop, true)
  }

  /** A listed route is an orphan exactly when no listed server owns its next hop. */
  lemma BlackholeExactly(servers: seq<Server>, opts: NetworkingOpts, lower: string -> string, items: seq<Route>, k: nat)
    requires Decodable(servers, opts) && k < |items|
    ensures var listed := ListedAll(items, NamesByAddr(servers, opts, lower));
            && |listed| == |items| && listed[k].cidr == items[k].cidr
            && (listed[k].blackhole <==> !Owned(servers, opts, items[k].nextHop))
            && (listed[k].blackhole ==> listed[k].targetNode == items[k].nextHop)
            && ListedFor(servers, opts, lower, items[k], listed[k])
  {
    hide NodeAddressesOf, NamesByAddr, Owns, LastOwner;
    NamesByAddrOwned(servers, opts, lower, items[k].nextHop);
    if Owned(servers, opts, items[k].nextHop) {
      var i := LastOwnerExists(servers, opts, items[k].nextHop);
      NamesByAddrLast(servers, opts, lower, items[k].nextHop, i);
    }
    ListedAllAt(items, NamesByAddr(servers, opts, lower), k);
  }

  /** A successful create and a successful delete of the same route. */
  method CreateThenDelete(c: RouteController, route: CloudRoute)
    returns (created: Option<Error>, deleted: Option<Error>)
    requires !route.blackhole
    modifies c.network
    ensures created.None? && deleted.None? ==>
              c.Hop(route).Success? &&
              var x := Route(route.cidr, c.Hop(route).value);
              var port := c.compute.PortOf(route.targetNode, c.Hop(route).value);
              c.network.net == old(c.network.net) <==>
                x !in old(c.network.net).routes && port.Success? && port.value in old(c.network.net).pairs &&
                PairIndex(old(c.network.net).pairs[port.value], route.cidr) == |old(c.network.net).pairs[port.value]|
  {
    hide CreateDone, DeleteDone, Unwound, Compute.PortOf, Compute.HopOf, CreateOutcome, DeleteOutcome;
    ghost var n0 := c.network.net;
    ghost var log, log';
    created, log := c.CreateRoute(route);
    ghost var n1 := c.network.net;
    deleted, log' := c.DeleteRoute(route);
    if created.None? && deleted.None? {
      var hop := c.Hop(route).value;
      CreateDeleteIdentity(n0, n1, c.network.net, route, hop, c.compute.PortOf(route.targetNode, hop), log, log');
    }
  }

  /** The only server is found, and without interfaces it has no port. */
  lemma SoleServer(srv: Server, c: Compute)
    requires c.servers == [srv] && c.interfaces == map[]
    ensures ServerByName(c.servers, srv.name) == Success(srv)
    ensures forall ip :: c.PortOf(srv.name, ip) == Fail(ErrNotFound)
  {
    assert [srv][..0] == [];
    assert Named([srv], srv.name) == [srv];
  }

  lemma SoleHop(srv: Server, c: Compute, needIPv6: bool, opts: NetworkingOpts)
    requires c.servers == [srv] && c.interfaces == map[] && srv.accessIPv4 != "" && srv.accessIPv6 == ""
    requires srv.metadata == map[] && srv.addresses == Some(map[])
    requires opts.isIPv6(srv.accessIPv4) == needIPv6 && !opts.ipv6SupportDisabled
    ensures c.HopOf(srv.name, needIPv6, opts) == Success(srv.accessIPv4)
  {
    hide NodeAddressesOf, ServerByName;
    SoleServer(srv, c);
    SoleAddress(srv, opts);
    var addrs := [NodeAddress(ExternalIP, srv.accessIPv4)];
    assert addrs[1..] == [] && FirstOf(addrs, InternalIP, needIPv6, opts.isIPv6).None?;
    assert c.HopOf(srv.name, needIPv6, opts) == Preferred(addrs, needIPv6, opts.isIPv6);
  }

  /** Without a port, and with every request of the network service carried out, a delete writes the router twice. */
  lemma StuckDelete(n0: Net, route: CloudRoute, addr: string, e: Error, answers: nat -> Answer)
    requires !route.blackhole && DeleteIndex(n0.routes, route, addr) < |n0.routes| && forall k :: answers(k) == Done
    ensures var i := DeleteIndex(n0.routes, route, addr);
            DeleteOutcome(n0, route, Success(addr), Fail(e), answers, 0) ==
            Outcome([RouterPut(SwapRemove(n0.routes, i), true, true),
                     RouterPut(n0.routes[i := n0.routes[|n0.routes| - 1]], true, true)], false)
  {
    hide DeleteIndex, SwapRemove;
  }

  lemma StuckUnwound(n0: Net, n: Net, to: seq<Route>, back: seq<Route>, cidr: string)
    requires Unwound(n0, n, [RouterPut(to, true, true), RouterPut(back, true, true)], to, back, cidr, false)
    ensures n == n0.(routes := back)
  {
  }

  /**
   * For every entry of every router there is a cluster in which deleting its route fails after the router update, and
   * although every request of the network service was carried out, the router has the entry overwritten by the last.
   */
  method DeleteUndoReached(routes: seq<Route>, k: nat,
                           isIPv6: string -> bool, isCIDRv6: string -> bool, lower: string -> string)
    returns (c: RouteController, err: Option<Error>, ghost i: nat)
    requires k < |routes| && routes[k].nextHop != "" && isCIDRv6(routes[k].cidr) == isIPv6(routes[k].nextHop)
    ensures i < |routes| && routes[i] == routes[k]
    ensures err.Some? && c.network.net.routes == routes[i := routes[|routes| - 1]]
    ensures c.network.net.routes == routes <==> routes[k] == routes[|routes| - 1]
  {
    hide Unwound, DeleteDone, SwapRemove, Undone, DeleteIndex, DeleteOutcome, Compute.HopOf, Compute.PortOf,
         NodeAddressesOf, ServerByName, LastDeleted;
    var hop := routes[k].nextHop;
    var srv := Server("id", "node", hop, "", map[], Some(map[]));
    var opts := NetworkingOpts(false, "public", "internal", isIPv6);
    var compute := new Compute([srv], map[], true);
    var network := new Network(Net(routes, map[]), n => Done);
    c := new RouteController(compute, network, opts, isCIDRv6, lower);
    var route := CloudRoute(routes[k].cidr, "node", false);
    SoleHop(srv, compute, isCIDRv6(route.cidr), opts);
    SoleServer(srv, compute);
    i := DeleteIndex(routes, route, hop);
    DeleteIndexMeaning(routes, route, hop);
    assert Deletes(routes[k], route, hop);
    StuckDelete(network.net, route, hop, compute.PortOf("node", hop).error, network.answers);
    assert c.DeleteHop(route) == Success(hop);
    ghost var log;
    err, log := c.DeleteRoute(route);
    StuckUnwound(Net(routes, map[]), c.network.net, SwapRemove(routes, i), routes[i := routes[|routes| - 1]],
                 route.cidr);
  }

  /** Deleting the k-th listed route when it is an orphan removes one entry equal to it, and touches no port. */
  method DeleteListedOrphan(c: RouteController, k: nat)
    returns (listed: Result<seq<CloudRoute>>, deleted: Option<Error>)
    requires k < |c.network.net.routes| && forall r :: r in c.network.net.routes ==> r.nextHop != ""
    modifies c.network
    ensures deleted.None? ==> listed.Success? && k < |listed.value| && listed.value[k].blackhole
    ensures deleted.None? ==>
              var n0, n := old(c.network.net), c.network.net;
              multiset(n.routes) + multiset{n0.routes[k]} == multiset(n0.routes) && n.pairs == n0.pairs
  {
    hide DeleteDone, Unwound, Compute.PortOf, Compute.HopOf, DeleteOutcome;
    ghost var n0 := c.network.net;
    listed := c.ListRoutes();
    if listed.Fail? {
      return listed, Some(listed.error);
    }
    BlackholeExactly(c.compute.servers, c.opts, c.lower, n0.routes, k);
    var route := listed.value[k];
    if !route.blackhole {
      return listed, Some(ErrInvalid);
    }
    ghost var log;
    deleted, log := c.DeleteRoute(route);
    if deleted.None? {
      OrphanDeleted(n0, c.network.net, k, c.compute.PortOf(route.targetNode, ""), log);
    }
  }
}
