/** The compute and network services behind the routes: servers, one router, and ports. */
module Neutron {
  import opened Basics
  import opened Slices
  import opened Addresses
  import opened Resources

  datatype Route = Route(cidr: string, nextHop: string)

  datatype Pair = Pair(ip: string, mac: string)

  datatype Interface = Interface(portID: string, ips: seq<string>)

  /** A write request: whether it took effect, and whether the caller was told so. */
  datatype Write =
    | RouterPut(routes: seq<Route>, applied: bool, acked: bool)
    | PortPut(port: string, pairs: seq<Pair>, applied: bool, acked: bool)

  /** What the network service does with a request: carries it out and says so, answers an error anyway, or refuses. */
  datatype Answer = Done | Lost | Refused

  /** The router's routes and every port's allowed address pairs. */
  datatype Net = Net(routes: seq<Route>, pairs: map<string, seq<Pair>>)

  function Effect(n: Net, e: Write): Net {
    match e
    case RouterPut(routes, applied, _) => if applied then n.(routes := routes) else n
    case PortPut(port, pairs, applied, _) => if applied then n.(pairs := n.pairs[port := pairs]) else n
  }

  function PutRoutes(routes: seq<Route>, answer: Answer): Write {
    RouterPut(routes, !answer.Refused?, answer.Done?)
  }

  function PutPairs(port: string, pairs: seq<Pair>, answer: Answer): Write {
    PortPut(port, pairs, !answer.Refused?, answer.Done?)
  }

  /** The state after a history of writes. */
  function Replay(n: Net, log: seq<Write>): Net {
    if log == [] then n else Effect(Replay(n, log[..|log| - 1]), log[|log| - 1])
  }

  lemma {:induction false} ReplayAppend(n: Net, a: seq<Write>, b: seq<Write>)
    ensures Replay(n, a + b) == Replay(Replay(n, a), b)
  {
    if b == [] {
      assert a + b == a;
    } else {
      ReplayAppend(n, a, b[..|b| - 1]);
      assert (a + b)[..|a + b| - 1] == a + b[..|b| - 1];
    }
  }

  lemma ReplayNone(n: Net)
    ensures Replay(n, []) == n
  {
  }

  lemma ReplayOne(n: Net, e: Write)
    ensures Replay(n, [e]) == Effect(n, e)
  {
    assert [e][..0] == [];
  }

  function Named(servers: seq<Server>, name: string): seq<Server> {
    if servers == [] then []
    else
      var last := servers[|servers| - 1];
      Named(servers[..|servers| - 1], name) + if last.name == name then [last] else []
  }

  function ServerByName(servers: seq<Server>, name: string): Result<Server> {
    var found := Named(servers, name);
    if |found| > 1 then Fail(ErrMultipleResults) else if |found| == 0 then Fail(ErrNotFound) else Success(found[0])
  }

  /** The i-th server has the name and no other has. */
  ghost predicate OnlyNamed(servers: seq<Server>, name: string, i: nat) {
    i < |servers| && servers[i].name == name && forall j :: 0 <= j < |servers| && servers[j].name == name ==> j == i
  }

  lemma {:induction false} NamedMeaning(servers: seq<Server>, name: string)
    ensures Named(servers, name) == [] <==> forall s :: s in servers ==> s.name != name
    ensures |Named(servers, name)| == 1 <==> exists i: nat :: OnlyNamed(servers, name, i)
    ensures |Named(servers, name)| == 1 ==>
              exists i: nat :: OnlyNamed(servers, name, i) && Named(servers, name)[0] == servers[i]
  {
    if servers != [] {
      var k := |servers| - 1;
      var front := servers[..k];
      NamedMeaning(front, name);
      assert servers == front + [servers[k]];
      if i: nat :| OnlyNamed(front, name, i) && Named(front, name)[0] == front[i] {
        assert servers[k].name != name ==> OnlyNamed(servers, name, i);
        assert servers[i].name == name;
      }
      if Named(front, name) == [] && servers[k].name == name {
        assert forall j :: 0 <= j < k ==> servers[j] in front;
        assert OnlyNamed(servers, name, k);
      }
      if i: nat :| OnlyNamed(servers, name, i) {
        assert i < k ==> OnlyNamed(front, name, i);
        assert i == k ==> forall s :: s in front ==> s.name != name;
      }
    }
  }

  /** Exactly one server may have the name. */
  lemma ServerByNameMeaning(servers: seq<Server>, name: string)
    ensures ServerByName(servers, name).Success? ==>
              exists i: nat :: OnlyNamed(servers, name, i) && ServerByName(servers, name).value == servers[i]
    ensures ServerByName(servers, name).Success? <==> exists i: nat :: OnlyNamed(servers, name, i)
    ensures ServerByName(servers, name) == Fail(ErrNotFound) <==> forall s :: s in servers ==> s.name != name
  {
    NamedMeaning(servers, name);
  }

  /** The i-th interface is the first that has the address. */
  ghost predicate FirstWith(interfaces: seq<Interface>, ip: string, i: nat) {
    i < |interfaces| && ip in interfaces[i].ips && forall j :: 0 <= j < i ==> ip !in interfaces[j].ips
  }

  lemma {:induction false} PortWithMeaning(interfaces: seq<Interface>, ip: string)
    ensures if exists i: nat :: FirstWith(interfaces, ip, i)
            then exists i: nat :: FirstWith(interfaces, ip, i)
                                  && PortWith(interfaces, ip) == Success(interfaces[i].portID)
            else PortWith(interfaces, ip) == Fail(ErrNotFound) && forall x :: x in interfaces ==> ip !in x.ips
  {
    if interfaces != [] {
      var rest := interfaces[1..];
      PortWithMeaning(rest, ip);
      assert interfaces == [interfaces[0]] + rest;
      forall i: nat | 0 < i ensures FirstWith(interfaces, ip, i) ==> FirstWith(rest, ip, i - 1) {
        assert i < |interfaces| ==> interfaces[i] == rest[i - 1];
        assert forall j :: 0 <= j < |rest| ==> rest[j] == interfaces[j + 1];
      }
      if ip in interfaces[0].ips {
        assert FirstWith(interfaces, ip, 0);
      } else if i: nat :| FirstWith(rest, ip, i) && PortWith(rest, ip) == Success(rest[i].portID) {
        assert forall j :: 0 < j < i + 1 ==> interfaces[j] == rest[j - 1];
        assert FirstWith(interfaces, ip, i + 1);
      }
    }
  }

  /** The port is that of the named server's first interface that has the address. */
  lemma PortOfMeaning(c: Compute, name: string, ip: string)
    ensures c.PortOf(name, ip).Success? <==>
              exists i: nat, k: nat :: OnlyNamed(c.servers, name, i) && c.servers[i].id in c.interfaces
                                       && FirstWith(c.interfaces[c.servers[i].id], ip, k)
    ensures forall i: nat, k: nat ::
              OnlyNamed(c.servers, name, i) && c.servers[i].id in c.interfaces
              && FirstWith(c.interfaces[c.servers[i].id], ip, k) ==>
                c.PortOf(name, ip) == Success(c.interfaces[c.servers[i].id][k].portID)
  {
    hide ServerByName, PortWith;
    ServerByNameMeaning(c.servers, name);
    var found := ServerByName(c.servers, name);
    if found.Success? {
      var i: nat :| OnlyNamed(c.servers, name, i) && found.value == c.servers[i];
      PortWithMeaning(c.InterfacesOf(found.value.id), ip);
      assert forall k: nat :: FirstWith([], ip, k) ==> false;
    }
  }

  /** An address of the family that the i-th server, the only one with the name, reports; internal if there is any. */
  ghost predicate HopFor(servers: seq<Server>, name: string, needIPv6: bool, opts: NetworkingOpts, i: nat, a: string) {
    && OnlyNamed(servers, name, i) && servers[i].addresses.Some? && opts.isIPv6(a) == needIPv6
    && (Reports(servers[i], opts, InternalIP, a) ||
        (Reports(servers[i], opts, ExternalIP, a)
         && forall x :: opts.isIPv6(x) == needIPv6 ==> !Reports(servers[i], opts, InternalIP, x)))
  }

  /** The next hop is an address that the one server with the name reports; there is one whenever it reports any. */
  lemma HopMeaning(c: Compute, name: string, needIPv6: bool, opts: NetworkingOpts)
    ensures c.HopOf(name, needIPv6, opts).Success? ==>
              !(needIPv6 && opts.ipv6SupportDisabled)
              && exists i: nat :: HopFor(c.servers, name, needIPv6, opts, i, c.HopOf(name, needIPv6, opts).value)
    ensures c.HopOf(name, needIPv6, opts).Success? <==>
              !(needIPv6 && opts.ipv6SupportDisabled)
              && exists i: nat, a :: HopFor(c.servers, name, needIPv6, opts, i, a)
  {
    hide Reports, NodeAddressesOf, Preferred, ServerByName;
    ServerByNameMeaning(c.servers, name);
    var found := ServerByName(c.servers, name);
    UndecodableFails(c.servers, opts);
    if found.Success? {
      var i: nat :| OnlyNamed(c.servers, name, i) && found.value == c.servers[i];
      assert found.value in c.servers;
      if found.value.addresses.Some? {
        PreferredReported(found.value, needIPv6, opts);
        var hop := Preferred(NodeAddressesOf(found.value, opts).value, needIPv6, opts.isIPv6);
        assert hop.Success? ==> HopFor(c.servers, name, needIPv6, opts, i, hop.value);
      }
    }
  }

  lemma UndecodableFails(servers: seq<Server>, opts: NetworkingOpts)
    ensures forall s :: s in servers ==> (NodeAddressesOf(s, opts).Success? <==> s.addresses.Some?)
  {
  }

  lemma PreferredReported(srv: Server, needIPv6: bool, opts: NetworkingOpts)
    requires srv.addresses.Some?
    ensures NodeAddressesOf(srv, opts).Success?
    ensures var r := Preferred(NodeAddressesOf(srv, opts).value, needIPv6, opts.isIPv6);
            && (r.Success? ==>
                  && opts.isIPv6(r.value) == needIPv6
                  && (Reports(srv, opts, InternalIP, r.value) ||
                      (Reports(srv, opts, ExternalIP, r.value)
                       && forall x :: opts.isIPv6(x) == needIPv6 ==> !Reports(srv, opts, InternalIP, x))))
            && (r.Success? <==> exists x :: opts.isIPv6(x) == needIPv6
                                            && (Reports(srv, opts, InternalIP, x) || Reports(srv, opts, ExternalIP, x)))
  {
    hide Reports, Candidates, Dedup;
    AddressesMeaning(srv, opts);
    var list := NodeAddressesOf(srv, opts).value;
    PreferredMeaning(list, needIPv6, opts.isIPv6);
    assert forall kind, x :: Reports(srv, opts, kind, x) <==> NodeAddress(kind, x) in list;
  }

  /** The port of the first interface that has the address. */
  function PortWith(interfaces: seq<Interface>, ip: string): Result<string> {
    if interfaces == [] then Fail(ErrNotFound)
    else if ip in interfaces[0].ips then Success(interfaces[0].portID)
    else PortWith(interfaces[1..], ip)
  }

  class Compute {
    const servers: seq<Server>
    const interfaces: map<string, seq<Interface>>
    /** Whether every request is answered; otherwise any may fail. */
    const reliable: bool

    constructor (servers0: seq<Server>, interfaces0: map<string, seq<Interface>>, reliable0: bool)
      ensures servers == servers0 && interfaces == interfaces0 && reliable == reliable0
    {
      servers, interfaces, reliable := servers0, interfaces0, reliable0;
    }

    /** The expected answer, or the failure of a service that is not reliable. */
    predicate Answers<T(==)>(r: Result<T>, expected: Result<T>) {
      r == expected || (!reliable && r == Fail(ErrApi(Failure)))
    }

    method GetServerByName(name: string) returns (r: Result<Server>)
      ensures Answers(r, ServerByName(servers, name))
    {
      if !reliable {
        if * { return Fail(ErrApi(Failure)); }
      }
      r := ServerByName(servers, name);
    }

    method GetInterfaces(id: string) returns (r: Result<seq<Interface>>)
      ensures Answers(r, Success(InterfacesOf(id)))
    {
      if !reliable {
        if * { return Fail(ErrApi(Failure)); }
      }
      r := Success(InterfacesOf(id));
    }

    function InterfacesOf(id: string): seq<Interface> {
      if id in interfaces then interfaces[id] else []
    }

    /** The next hop that the controller uses for a node. */
    ghost function HopOf(name: string, needIPv6: bool, opts: NetworkingOpts): Result<string> {
      if needIPv6 && opts.ipv6SupportDisabled then Fail(ErrIPv6SupportDisabled)
      else
        match ServerByName(servers, name)
        case Fail(e) => Fail(e)
        case Success(srv) =>
          match NodeAddressesOf(srv, opts)
          case Fail(e) => Fail(e)
          case Success(addrs) => Preferred(addrs, needIPv6, opts.isIPv6)
    }

    method GetAddressByName(name: string, needIPv6: bool, opts: NetworkingOpts) returns (r: Result<string>)
      ensures Answers(r, HopOf(name, needIPv6, opts))
    {
      if needIPv6 && opts.ipv6SupportDisabled {
        return Fail(ErrIPv6SupportDisabled);
      }
      var srv := GetServerByName(name);
      if srv.Fail? {
        return Fail(srv.error);
      }
      var addrs := NodeAddresses(srv.value, opts);
      if addrs.Fail? {
        return Fail(addrs.error);
      } else if |addrs.value| == 0 {
        return Fail(ErrNoAddressFound);
      }
      var found := FindAddress(addrs.value, InternalIP, needIPv6, opts.isIPv6);
      if found.Some? {
        return Success(found.value);
      }
      found := FindAddress(addrs.value, ExternalIP, needIPv6, opts.isIPv6);
      if found.Some? {
        return Success(found.value);
      }
      return Fail(ErrNoAddressFound);
    }

    function PortOf(name: string, ip: string): Result<string> {
      match ServerByName(servers, name)
      case Fail(e) => Fail(e)
      case Success(srv) => PortWith(InterfacesOf(srv.id), ip)
    }

    method GetPortIDByIP(name: string, ip: string) returns (r: Result<string>)
      ensures Answers(r, PortOf(name, ip))
    {
      var srv := GetServerByName(name);
      if srv.Fail? {
        return Fail(srv.error);
      }
      var found := GetInterfaces(srv.value.id);
      if found.Fail? {
        return Fail(found.error);
      }
      var interfaces := found.value;
      for i := 0 to |interfaces|
        invariant PortWith(interfaces, ip) == PortWith(interfaces[i..], ip)
      {
        if ip in interfaces[i].ips {
          return Success(interfaces[i].portID);
        }
      }
      return Fail(ErrNotFound);
    }
  }

  method FindAddress(addrs: seq<NodeAddress>, kind: AddressType, needIPv6: bool, isIPv6: string -> bool)
    returns (r: Option<string>)
    ensures r == FirstOf(addrs, kind, needIPv6, isIPv6)
  {
    for i := 0 to |addrs|
      invariant FirstOf(addrs, kind, needIPv6, isIPv6) == FirstOf(addrs[i..], kind, needIPv6, isIPv6)
    {
      if addrs[i].kind == kind && isIPv6(addrs[i].address) == needIPv6 {
        return Some(addrs[i].address);
      }
    }
    return None;
  }

  /** One router and the ports' allowed address pairs. The k-th request is answered as `answers(k)` says. */
  class Network {
    var net: Net
    var calls: nat
    ghost var log: seq<Write>
    const answers: nat -> Answer

    constructor (net0: Net, answers0: nat -> Answer)
      ensures net == net0 && calls == 0 && log == [] && answers == answers0
    {
      net, calls, log, answers := net0, 0, [], answers0;
    }

    method GetRouter() returns (r: Reply<Slice<Route>>)
      modifies `calls
      ensures calls == old(calls) + 1
      ensures r.Ok? <==> answers(old(calls)).Done?
      ensures r.Ok? ==> r.value.Valid() && fresh(r.value.arr) && r.value.View() == net.routes
    {
      calls := calls + 1;
      if !answers(calls - 1).Done? { return Err(Failure); }
      var s := Make(net.routes);
      return Ok(s);
    }

    method UpdateRouter(s: Slice<Route>) returns (ok: bool, ghost e: Write)
      requires s.Valid()
      modifies this
      ensures calls == old(calls) + 1 && log == old(log) + [e] && net == Effect(old(net), e)
      ensures e == PutRoutes(s.View(), answers(old(calls))) && ok == e.acked
    {
      var answer := answers(calls);
      calls := calls + 1;
      if !answer.Refused? {
        net := net.(routes := s.arr[..s.len]);
      }
      e := PutRoutes(s.View(), answer);
      log := log + [e];
      ok := answer.Done?;
    }

    method GetPort(id: string) returns (r: Reply<Slice<Pair>>)
      modifies `calls
      ensures calls == old(calls) + 1
      ensures r.Ok? <==> answers(old(calls)).Done? && id in net.pairs
      ensures r.Ok? ==> r.value.Valid() && fresh(r.value.arr) && r.value.View() == net.pairs[id]
    {
      calls := calls + 1;
      if !answers(calls - 1).Done? { return Err(Failure); }
      if id !in net.pairs { return Err(NotFound); }
      var s := Make(net.pairs[id]);
      return Ok(s);
    }

    method UpdatePort(id: string, s: Slice<Pair>) returns (ok: bool, ghost e: Write)
      requires s.Valid()
      modifies this
      ensures calls == old(calls) + 1 && log == old(log) + [e] && net == Effect(old(net), e)
      ensures e == PutPairs(id, s.View(), answers(old(calls))) && ok == e.acked
    {
      var answer := answers(calls);
      calls := calls + 1;
      if !answer.Refused? {
        net := net.(pairs := net.pairs[id := s.arr[..s.len]]);
      }
      e := PutPairs(id, s.View(), answer);
      log := log + [e];
      ok := answer.Done?;
    }
  }
}
