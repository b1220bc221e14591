/** The states that a reconciliation of one service passes through, and what each kind of step keeps. */
module Convergence {
  import opened Basics
  import opened Sequences
  import opened Slices
  import opened Resources
  import opened Clouds
  import opened Paging
  import opened Listing
  import opened Membership
  import opened Members
  import opened AccessLists

  function ToLBProtocol(protocol: string, keepClientIP: bool): string {
    if keepClientIP then "HTTP" else if protocol == "TCP" then "TCP_CLIENT_FIRST" else protocol
  }

  function CloneVips(lb: LoadBalancer): seq<VipOption> {
    seq(|lb.vips|, i requires 0 <= i < |lb.vips| => ById(lb.vips[i].id))
  }

  /** What one call of the reconciler works towards. */
  datatype Goal = Goal(name: string, keepClientIP: bool, ranges: set<string>, nodes: seq<Node>)

  /** Nothing carrying the name has changed. */
  ghost predicate Untouched(w0: World, w: World, name: string) {
    && (forall id :: id in w0.lbs && w0.lbs[id].lb.name == name ==> id in w.lbs && w.lbs[id] == w0.lbs[id])
    && LiveNamed(w, name) == LiveNamed(w0, name)
  }

  /** Only live load balancers of the name have changed since `w0`; what is new carries the name. */
  ghost predicate Framed(w0: World, w: World, name: string) {
    && (forall id :: id in w0.lbs ==> id in w.lbs)
    && (forall id :: id in w0.lbs && id !in LiveNamed(w0, name) ==> w.lbs[id] == w0.lbs[id])
    && (forall id :: id in LiveNamed(w0, name) ==> w.lbs[id].lb.name == name && w.lbs[id].lb.port == w0.lbs[id].lb.port)
    && (forall id :: id in w.lbs && id !in w0.lbs ==> w.lbs[id].lb.name == name)
  }

  /** What a call for one name does leaves every other name's load balancers as they were. */
  lemma OtherNamesUntouched(w0: World, w: World, name: string, other: string)
    requires Framed(w0, w, name) && name != other
    ensures Untouched(w0, w, other)
  {
  }

  lemma FramedSharing(w0: World, w: World, name: string)
    requires Framed(w0, w, name) && (VipsSharedOf(w0, name) ==> VipsSharedOf(w, name))
    ensures SharingKept(w0, w)
  {
    forall other | other != name && VipsSharedOf(w0, other) ensures VipsSharedOf(w, other) {
      OtherNamesUntouched(w0, w, name, other);
    }
  }

  /** Framed, nothing live has died, and virtual IPs that were shared still are. */
  ghost predicate Safe(w0: World, w: World, name: string) {
    && Framed(w0, w, name) && LiveNamed(w0, name) <= LiveNamed(w, name)
    && (VipsSharedOf(w0, name) ==> VipsSharedOf(w, name))
  }

  /** `rest` is still as listed, `served` has been taken or made, and together they are all that is live. */
  ghost predicate Progress(w0: World, w: World, name: string, rest: seq<LoadBalancer>, served: seq<nat>) {
    && Safe(w0, w, name)
    && DistinctIds(rest) && NoDup(served)
    && (forall x :: x in rest ==>
          x.id in w0.lbs && x.id in w.lbs && w.lbs[x.id] == w0.lbs[x.id] && x == w0.lbs[x.id].lb && x.id !in served)
    && LiveNamed(w, name) == Ids(rest) + ToSet(served)
  }

  /** The load balancer `id` is what port `p` asks for, members aside. */
  ghost predicate Prepared(w0: World, w: World, id: nat, p: ServicePort, g: Goal) {
    && LiveAt(w, id)
    && w.lbs[id].lb.name == g.name
    && w.lbs[id].lb.port == p.port
    && w.lbs[id].lb.protocol == ToLBProtocol(p.protocol, g.keepClientIP)
    && AccessInLine(AccessAt(w0, id), w.lbs[id].access, g.ranges)
    && w.lbs[id].members == MembersAt(w0, id)
  }

  ghost predicate Served(w0: World, w: World, id: nat, p: ServicePort, g: Goal) {
    && LiveAt(w, id)
    && w.lbs[id].lb.name == g.name
    && w.lbs[id].lb.port == p.port
    && w.lbs[id].lb.protocol == ToLBProtocol(p.protocol, g.keepClientIP)
    && AccessInLine(AccessAt(w0, id), w.lbs[id].access, g.ranges)
    && Keys(w.lbs[id].members) == FinalKeys(Keys(MembersAt(w0, id)), Wanted(g.nodes, p.nodePort))
  }

  /** Only `id` changed, and neither its identity, its virtual IPs nor its being alive. */
  ghost predicate Tuned(w: World, w': World, id: nat) {
    && OnlyAt(w, w', id)
    && (id in w.lbs ==>
          var a, b := w.lbs[id].lb, w'.lbs[id].lb;
          a.name == b.name && a.port == b.port && a.vips == b.vips && IsLive(a.status) == IsLive(b.status))
  }

  lemma TunedTransitive(w0: World, w1: World, w2: World, id: nat)
    requires Tuned(w0, w1, id) && Tuned(w1, w2, id)
    ensures Tuned(w0, w2, id)
  {
  }

  lemma TunedLive(w: World, w': World, id: nat, name: string)
    requires Tuned(w, w', id)
    ensures LiveNamed(w', name) == LiveNamed(w, name)
  {
  }

  lemma TunedVips(w: World, w': World, id: nat, name: string)
    requires Tuned(w, w', id)
    ensures VipsSharedOf(w', name) <==> VipsSharedOf(w, name)
  {
    TunedLive(w, w', id, name);
    forall j | j in LiveNamed(w, name) ensures w'.lbs[j].lb.vips == w.lbs[j].lb.vips {}
  }

  lemma TunedSafe(w0: World, w: World, w': World, id: nat, name: string)
    requires Safe(w0, w, name) && Tuned(w, w', id) && id in LiveNamed(w, name)
    ensures Safe(w0, w', name)
  {
    hide VipsSharedOf;
    TunedLive(w, w', id, name);
    TunedVips(w, w', id, name);
  }

  /** The options for the next load balancer: known virtual IPs, those of all that live if these share them. */
  ghost predicate OptionsShare(w: World, name: string, options: seq<VipOption>) {
    && KnownVips(w, options)
    && (VipsSharedOf(w, name) ==> forall id :: id in LiveNamed(w, name) ==> options == CloneVips(w.lbs[id].lb))
  }

  lemma TunedOptions(w: World, w': World, id: nat, name: string, options: seq<VipOption>)
    requires Tuned(w, w', id) && OptionsShare(w, name, options)
    ensures OptionsShare(w', name, options)
  {
    hide VipsSharedOf;
    TunedLive(w, w', id, name);
    TunedVips(w, w', id, name);
  }

  /** A created load balancer has the virtual IPs of the others. */
  lemma CreatedShares(w: World, w': World, id: nat, o: CreateOptions, j: nat)
    requires ValidWorld(w) && ValidWorld(w') && BalancerAdded(w, w', id, o)
    requires j in LiveNamed(w, o.name) && o.vips == CloneVips(w.lbs[j].lb)
    ensures w'.lbs[id].lb.vips == w.lbs[j].lb.vips && CloneVips(w'.lbs[id].lb) == o.vips
  {
  }

  lemma CreateLive(w: World, w': World, id: nat, o: CreateOptions)
    requires BalancerAdded(w, w', id, o)
    ensures LiveNamed(w', o.name) == LiveNamed(w, o.name) + {id} && id !in LiveNamed(w, o.name)
  {
  }

  lemma CloneKnown(w: World, id: nat)
    requires ValidWorld(w) && id in w.lbs
    ensures KnownVips(w, CloneVips(w.lbs[id].lb))
  {
    assert ValidRecord(id, w.lbs[id], w.vips);
    forall v | v in CloneVips(w.lbs[id].lb) ensures v.id in w.vips {
      var i :| 0 <= i < |w.lbs[id].lb.vips| && v == ById(w.lbs[id].lb.vips[i].id);
    }
  }

  /** Creating with the current options keeps the sharing, and the new virtual IPs are the next options. */
  lemma CreateVips(w: World, w': World, id: nat, o: CreateOptions)
    requires ValidWorld(w) && ValidWorld(w') && BalancerAdded(w, w', id, o)
    requires OptionsShare(w, o.name, o.vips)
    ensures VipsSharedOf(w, o.name) ==> VipsSharedOf(w', o.name)
    ensures OptionsShare(w', o.name, CloneVips(w'.lbs[id].lb))
  {
    CreateLive(w, w', id, o);
    CloneKnown(w', id);
    if VipsSharedOf(w, o.name) {
      forall j | j in LiveNamed(w, o.name) ensures w'.lbs[j].lb.vips == w'.lbs[id].lb.vips {
        CreatedShares(w, w', id, o, j);
      }
    }
  }

  lemma CreateKeeps(w0: World, w: World, w': World, id: nat, o: CreateOptions)
    requires ValidWorld(w) && ValidWorld(w') && BalancerAdded(w, w', id, o)
    requires Safe(w0, w, o.name) && OptionsShare(w, o.name, o.vips)
    ensures Safe(w0, w', o.name)
  {
    hide VipsSharedOf, OptionsShare, ValidWorld;
    CreateLive(w, w', id, o);
    CreateVips(w, w', id, o);
  }

  lemma TunedProgress(w0: World, w: World, w': World, name: string, rest: seq<LoadBalancer>, served: seq<nat>, id: nat)
    requires Progress(w0, w, name, rest, served) && id in served && Tuned(w, w', id)
    ensures Progress(w0, w', name, rest, served)
  {
    assert id in ToSet(served);
    assert id in LiveNamed(w, name);
    TunedSafe(w0, w, w', id, name);
    TunedLive(w, w', id, name);
  }

  lemma CreateProgress(w0: World, w: World, w': World, rest: seq<LoadBalancer>, served: seq<nat>, id: nat,
                       o: CreateOptions)
    requires ValidWorld(w) && ValidWorld(w') && BalancerAdded(w, w', id, o)
    requires Progress(w0, w, o.name, rest, served) && OptionsShare(w, o.name, o.vips)
    ensures Progress(w0, w', o.name, rest, served + [id])
  {
    hide Safe, OptionsShare, ValidWorld, LiveNamed;
    CreateKeeps(w0, w, w', id, o);
    CreateLive(w, w', id, o);
    assert id !in ToSet(served);
    assert ToSet(served + [id]) == ToSet(served) + {id};
  }

  /** Taking a listed load balancer moves it from the rest to the served. */
  lemma TakeProgress(w0: World, w: World, name: string, rest: seq<LoadBalancer>, served: seq<nat>, x: LoadBalancer,
                     rest': seq<LoadBalancer>)
    requires Progress(w0, w, name, rest, served) && x in rest
    requires DistinctIds(rest') && (forall y :: y in rest' <==> y in rest && y.id != x.id)
    ensures Progress(w0, w, name, rest', served + [x.id])
  {
  }

  /** All that is live was listed: the start of the loop. */
  lemma StartProgress(w: World, name: string, lbs: seq<LoadBalancer>)
    requires Lists(w, name, lbs)
    ensures Progress(w, w, name, lbs, [])
  {
  }

  /** Load balancers in `ids` may have died; nothing else changed. */
  ghost predicate Reaped(w: World, w': World, ids: set<nat>) {
    && w'.order == w.order && w'.vips == w.vips
    && w'.lbs.Keys == w.lbs.Keys
    && (forall id :: id in w.lbs && id !in ids ==> w'.lbs[id] == w.lbs[id])
    && (forall id :: id in w.lbs && id in ids ==>
          (LiveAt(w', id) ==> LiveAt(w, id)) &&
          w'.lbs[id] == w.lbs[id].(lb := w.lbs[id].lb.(status := w'.lbs[id].lb.status)))
  }

  lemma ReapedVips(w: World, w': World, ids: set<nat>)
    requires Reaped(w, w', ids)
    ensures SharingKept(w, w')
  {
    hide Reaped;
    forall name | VipsSharedOf(w, name) ensures VipsSharedOf(w', name) {
      forall i: nat | i in LiveNamed(w', name)
        ensures i in LiveNamed(w, name) && w'.lbs[i].lb.vips == w.lbs[i].lb.vips
      {
        ReapedAt(w, w', ids, i);
      }
    }
  }

  lemma ReapedAt(w: World, w': World, ids: set<nat>, i: nat)
    requires Reaped(w, w', ids) && i in w'.lbs
    ensures i in w.lbs && (LiveAt(w', i) ==> LiveAt(w, i))
    ensures w'.lbs[i].members == w.lbs[i].members && w'.lbs[i].access == w.lbs[i].access
    ensures var a, b := w.lbs[i].lb, w'.lbs[i].lb; a.name == b.name && a.port == b.port && a.vips == b.vips
  {
  }

  /** Removing the rest leaves the served load balancers as they are. */
  lemma ReapedServed(w0: World, w: World, w': World, name: string, rest: seq<LoadBalancer>, served: seq<nat>)
    requires Progress(w0, w, name, rest, served) && Reaped(w, w', Ids(rest))
    ensures forall s :: s in served ==> s in w.lbs && w'.lbs[s] == w.lbs[s] && s in LiveNamed(w', name)
  {
    forall s | s in served ensures s in w.lbs && s !in Ids(rest) && s in LiveNamed(w, name) {
      assert s in ToSet(served);
    }
  }

  lemma ReapedFramed(w0: World, w: World, w': World, name: string, rest: seq<LoadBalancer>, served: seq<nat>)
    requires Progress(w0, w, name, rest, served) && Reaped(w, w', Ids(rest))
    ensures Framed(w0, w', name)
  {
    hide VipsSharedOf, Reaped, IsLive;
    forall i | i in Ids(rest) ensures i in w0.lbs && i in LiveNamed(w0, name) {
      assert i in LiveNamed(w, name);
    }
    ReapedKeys(w, w', Ids(rest));
    forall i: nat | i in w.lbs ensures w'.lbs[i].lb.name == w.lbs[i].lb.name && w'.lbs[i].lb.port == w.lbs[i].lb.port {
      ReapedAt(w, w', Ids(rest), i);
    }
  }

  lemma ReapedKeys(w: World, w': World, ids: set<nat>)
    requires Reaped(w, w', ids)
    ensures w'.lbs.Keys == w.lbs.Keys
    ensures forall i :: i in w.lbs && i !in ids ==> w'.lbs[i] == w.lbs[i]
  {
  }

  lemma ReapedSharing(w0: World, w: World, w': World, name: string, rest: seq<LoadBalancer>, served: seq<nat>)
    requires Progress(w0, w, name, rest, served) && Reaped(w, w', Ids(rest))
    ensures SharingKept(w0, w')
  {
    hide VipsSharedOf, Reaped, Framed;
    ReapedFramed(w0, w, w', name, rest, served);
    ReapedVips(w, w', Ids(rest));
    FramedSharing(w0, w', name);
  }

  /** Once the rest is dead, the served load balancers are all that lives. */
  lemma ReapedLive(w0: World, w: World, w': World, name: string, rest: seq<LoadBalancer>, served: seq<nat>)
    requires Progress(w0, w, name, rest, served) && Reaped(w, w', Ids(rest))
    requires forall i :: i in Ids(rest) ==> !LiveAt(w', i)
    ensures LiveNamed(w', name) == ToSet(served)
  {
  }

  /** A prepared load balancer whose members alone were then brought in line is served. */
  lemma PreparedServed(w0: World, w: World, w': World, id: nat, p: ServicePort, g: Goal)
    requires Prepared(w0, w, id, p, g) && NodesOnly(w, w', id)
    requires Keys(MembersAt(w', id)) == FinalKeys(Keys(MembersAt(w, id)), Wanted(g.nodes, p.nodePort))
    ensures Served(w0, w', id, p, g)
  {
  }

  lemma CreatedPrepared(w0: World, w: World, w': World, id: nat, o: CreateOptions, p: ServicePort, g: Goal)
    requires Framed(w0, w, g.name) && BalancerAdded(w, w', id, o)
    requires o.name == g.name && o.port == p.port && o.protocol == ToLBProtocol(p.protocol, g.keepClientIP)
    requires Desired(o.access, g.ranges)
    ensures Prepared(w0, w', id, p, g)
  {
    RewriteSteps([], o.access, o.access, g.ranges);
  }

  /** Only status and members of live load balancers of the name changed; none died. */
  ghost predicate MembersChanged(w0: World, w: World, name: string) {
    && w.lbs.Keys == w0.lbs.Keys
    && (forall id :: id in w0.lbs && id !in LiveNamed(w0, name) ==> w.lbs[id] == w0.lbs[id])
    && (forall id :: id in w0.lbs ==>
          IsLive(w.lbs[id].lb.status) == IsLive(w0.lbs[id].lb.status) &&
          w.lbs[id] == w0.lbs[id].(lb := w0.lbs[id].lb.(status := w.lbs[id].lb.status), members := w.lbs[id].members))
  }

  lemma MembersChangedMore(w0: World, w1: World, w2: World, name: string, id: nat)
    requires MembersChanged(w0, w1, name) && NodesOnly(w1, w2, id) && id in LiveNamed(w0, name)
    ensures MembersChanged(w0, w2, name)
  {
    hide IsLive;
  }

  lemma MembersChangedSafe(w0: World, w: World, name: string)
    requires MembersChanged(w0, w, name)
    ensures Safe(w0, w, name) && LiveNamed(w, name) == LiveNamed(w0, name)
  {
    assert LiveNamed(w, name) == LiveNamed(w0, name);
  }

  lemma MembersChangedFramed(w0: World, w: World, name: string)
    requires MembersChanged(w0, w, name)
    ensures Framed(w0, w, name)
  {
  }

  lemma ReapedNamedFramed(w0: World, w: World, name: string)
    requires Reaped(w0, w, LiveNamed(w0, name))
    ensures Framed(w0, w, name)
  {
  }

  /** The members of the load balancer on number `v` after each port with that number had its turn. */
  function PortKeys(m: set<Key>, nodes: seq<Node>, ports: seq<ServicePort>, v: int): set<Key> {
    if ports == [] then m
    else
      var last := ports[|ports| - 1];
      var before := PortKeys(m, nodes, ports[..|ports| - 1], v);
      if last.port == v then FinalKeys(before, Wanted(nodes, last.nodePort)) else before
  }

  /** With distinct port numbers each load balancer ends with what its one port asks for. */
  lemma {:induction false} PortKeysDistinct(m: set<Key>, nodes: seq<Node>, ports: seq<ServicePort>, k: nat)
    requires forall i, j :: 0 <= i < j < |ports| ==> ports[i].port != ports[j].port
    requires k < |ports|
    ensures PortKeys(m, nodes, ports, ports[k].port) == FinalKeys(m, Wanted(nodes, ports[k].nodePort))
  {
    var front := ports[..|ports| - 1];
    if k < |front| {
      PortKeysDistinct(m, nodes, front, k);
    } else {
      PortKeysAbsent(m, nodes, front, ports[k].port);
    }
  }

  lemma {:induction false} PortKeysAbsent(m: set<Key>, nodes: seq<Node>, ports: seq<ServicePort>, v: int)
    requires forall i :: 0 <= i < |ports| ==> ports[i].port != v
    ensures PortKeys(m, nodes, ports, v) == m
  {
    if ports != [] {
      PortKeysAbsent(m, nodes, ports[..|ports| - 1], v);
    }
  }

  /** The last port with a number had the last turn. */
  lemma {:induction false} PortKeysFinal(m: set<Key>, nodes: seq<Node>, ports: seq<ServicePort>, k: nat)
    returns (before: set<Key>)
    requires k < |ports| && forall i :: k < i < |ports| ==> ports[i].port != ports[k].port
    ensures PortKeys(m, nodes, ports, ports[k].port) == FinalKeys(before, Wanted(nodes, ports[k].nodePort))
  {
    hide FinalKeys, Wanted;
    var front := ports[..|ports| - 1];
    if k < |front| {
      before := PortKeysFinal(m, nodes, front, k);
    } else {
      before := PortKeys(m, nodes, front, ports[k].port);
    }
  }

  /** With a repeated number the last port wins: no member for another node port is left. */
  lemma {:induction false} PortKeysLastWins(m: set<Key>, nodes: seq<Node>, ports: seq<ServicePort>, k: nat)
    requires ProperNodes(nodes) && AllAddressed(nodes) && k < |ports|
    requires forall i :: k < i < |ports| ==> ports[i].port != ports[k].port
    ensures forall key :: key in PortKeys(m, nodes, ports, ports[k].port) ==> key.port == ports[k].nodePort
  {
    hide FinalKeys, ProperNodes, AllAddressed, AddressOf;
    var front := ports[..|ports| - 1];
    if k < |front| {
      PortKeysLastWins(m, nodes, front, k);
    } else {
      var d := Wanted(nodes, ports[k].nodePort);
      WantedNoDup(nodes, ports[k].nodePort);
      FinalExact(PortKeys(m, nodes, front, ports[k].port), d);
      assert forall key :: key in ToSet(d) ==> key.port == ports[k].nodePort;
    }
  }

  /** A port number, and a protocol or any. */
  predicate Fits(port: int, protocol: string, number: int, wanted: Option<string>) {
    port == number && (wanted.Some? ==> protocol == wanted.value)
  }

  /** The live load balancers of the name on a port number, with a protocol or any. */
  ghost function LiveOn(w: World, name: string, number: int, wanted: Option<string>): set<nat> {
    set id | id in LiveNamed(w, name) && Fits(w.lbs[id].lb.port, w.lbs[id].lb.protocol, number, wanted)
  }

  function CountPorts(ports: seq<ServicePort>, number: int, wanted: Option<string>, keep: bool): nat {
    if ports == [] then 0
    else
      var last := ports[|ports| - 1];
      CountPorts(ports[..|ports| - 1], number, wanted, keep)
      + if Fits(last.port, ToLBProtocol(last.protocol, keep), number, wanted) then 1 else 0
  }

  function Chosen(w: World, served: seq<nat>, number: int, wanted: Option<string>): seq<nat> {
    if served == [] then []
    else
      var last := served[|served| - 1];
      Chosen(w, served[..|served| - 1], number, wanted)
      + if last in w.lbs && Fits(w.lbs[last].lb.port, w.lbs[last].lb.protocol, number, wanted) then [last] else []
  }

  lemma {:induction false} ChosenCounts(w0: World, w: World, served: seq<nat>, ports: seq<ServicePort>, g: Goal,
                                        number: int, wanted: Option<string>)
    requires ServedAll(w0, w, served, ports, g)
    ensures |Chosen(w, served, number, wanted)| == CountPorts(ports, number, wanted, g.keepClientIP)
  {
    if served != [] {
      ChosenCounts(w0, w, served[..|served| - 1], ports[..|ports| - 1], g, number, wanted);
      assert Served(w0, w, served[|served| - 1], ports[|ports| - 1], g);
    }
  }

  lemma {:induction false} ChosenElements(w: World, served: seq<nat>, number: int, wanted: Option<string>)
    requires NoDup(served)
    ensures NoDup(Chosen(w, served, number, wanted))
    ensures forall id :: id in Chosen(w, served, number, wanted) <==>
                           id in served && id in w.lbs && Fits(w.lbs[id].lb.port, w.lbs[id].lb.protocol, number, wanted)
  {
    if served != [] {
      ChosenElements(w, served[..|served| - 1], number, wanted);
      assert served == served[..|served| - 1] + [served[|served| - 1]];
    }
  }

  ghost predicate ServedAll(w0: World, w: World, served: seq<nat>, ports: seq<ServicePort>, g: Goal) {
    |served| == |ports| && forall k :: 0 <= k < |ports| ==> Served(w0, w, served[k], ports[k], g)
  }

  /** For every port number, and every protocol on it, there are as many live load balancers as service ports. */
  lemma LiveCountsMatchPorts(w0: World, w: World, served: seq<nat>, ports: seq<ServicePort>, g: Goal, number: int,
                             wanted: Option<string>)
    requires ServedAll(w0, w, served, ports, g) && NoDup(served) && LiveNamed(w, g.name) == ToSet(served)
    ensures |LiveOn(w, g.name, number, wanted)| == CountPorts(ports, number, wanted, g.keepClientIP)
  {
    ChosenCounts(w0, w, served, ports, g, number, wanted);
    ChosenElements(w, served, number, wanted);
    var chosen := Chosen(w, served, number, wanted);
    CardToSet(chosen);
    assert ToSet(chosen) == LiveOn(w, g.name, number, wanted);
  }

  /** A load balancer was made for a port number only once none was left over on it. */
  ghost predicate Sparing(w0: World, w: World, rest: seq<LoadBalancer>, served: seq<nat>) {
    forall s :: s in served && s !in w0.lbs ==> s in w.lbs && forall x :: x in rest ==> x.port != w.lbs[s].lb.port
  }

  /** No port number has seen both a new load balancer and the end of a live one. */
  ghost predicate NoChurn(w0: World, w: World, name: string) {
    forall s, j | s in LiveNamed(w, name) && s !in w0.lbs && j in LiveNamed(w0, name) ::
      w0.lbs[j].lb.port == w.lbs[s].lb.port ==> LiveAt(w, j)
  }

  lemma SparingMore(w0: World, w1: World, w2: World, rest: seq<LoadBalancer>, served: seq<nat>,
                    rest': seq<LoadBalancer>, id: nat, p: ServicePort)
    requires Sparing(w0, w1, rest, served) && (forall x :: x in rest' ==> x in rest)
    requires id !in served && (forall j :: j in w1.lbs && j != id ==> j in w2.lbs && w2.lbs[j] == w1.lbs[j])
    requires id in w2.lbs && w2.lbs[id].lb.port == p.port
    requires id !in w0.lbs ==> forall x :: x in rest' ==> x.port != p.port
    ensures Sparing(w0, w2, rest', served + [id])
  {
  }

  /** Deleting what is left over then ends no live load balancer on a number that got a new one. */
  lemma SparingEnd(w0: World, w1: World, w2: World, name: string, rest: seq<LoadBalancer>, served: seq<nat>)
    requires Progress(w0, w1, name, rest, served) && Sparing(w0, w1, rest, served)
    requires Reaped(w1, w2, Ids(rest)) && LiveNamed(w2, name) == ToSet(served)
    ensures NoChurn(w0, w2, name)
  {
    ReapedServed(w0, w1, w2, name, rest, served);
    forall s, j | s in LiveNamed(w2, name) && s !in w0.lbs && j in LiveNamed(w0, name)
                  && w0.lbs[j].lb.port == w2.lbs[s].lb.port
      ensures LiveAt(w2, j)
    {
      assert s in ToSet(served);
      assert j in LiveNamed(w1, name);
      assert forall x :: x in rest ==> x.port != w1.lbs[s].lb.port && x == w0.lbs[x.id].lb;
      assert j !in Ids(rest);
      assert j in ToSet(served);
    }
  }

  /** Without churn, equal numbers of live load balancers per port number mean the same load balancers. */
  lemma EqualCountsSameSet(w0: World, w: World, name: string)
    requires Framed(w0, w, name) && NoChurn(w0, w, name)
    requires forall v :: |LiveOn(w, name, v, None)| == |LiveOn(w0, name, v, None)|
    ensures LiveNamed(w, name) == LiveNamed(w0, name)
  {
    forall j | j in LiveNamed(w0, name) ensures j in LiveNamed(w, name) {
      var v := w0.lbs[j].lb.port;
      if !LiveAt(w, j) {
        assert LiveOn(w, name, v, None) <= LiveOn(w0, name, v, None) - {j};
        SubsetCard(LiveOn(w, name, v, None), LiveOn(w0, name, v, None) - {j});
      }
    }
    forall s | s in LiveNamed(w, name) ensures s in LiveNamed(w0, name) {
      var v := w.lbs[s].lb.port;
      assert LiveOn(w0, name, v, None) <= LiveOn(w, name, v, None);
      SubsetCard(LiveOn(w0, name, v, None), LiveOn(w, name, v, None));
      assert s in LiveOn(w, name, v, None);
    }
  }

  /** What an interrupted call can leave of the members of a load balancer on number `v`. */
  ghost predicate MemberStep(before: set<Key>, now: set<Key>, v: int, ports: seq<ServicePort>, nodes: seq<Node>) {
    now == before || exists p :: p in ports && p.port == v && NodesStep(before, now, nodes, p.nodePort)
  }

  /** Every load balancer is as at the start or as an interrupted call for one of the ports on its number leaves it. */
  ghost predicate Touched(w0: World, w: World, ports: seq<ServicePort>, g: Goal) {
    forall id :: id in w.lbs ==> TouchedAt(w0, w, id, ports, g)
  }

  ghost predicate TouchedAt(w0: World, w: World, id: nat, ports: seq<ServicePort>, g: Goal)
    requires id in w.lbs
  {
    && MemberStep(Keys(MembersAt(w0, id)), Keys(w.lbs[id].members), w.lbs[id].lb.port, ports, g.nodes)
    && AccessStep(AccessAt(w0, id), w.lbs[id].access, g.ranges)
  }

  /** Adjusting the access list of a load balancer that was as at the start. */
  lemma TouchedTuned(w0: World, w1: World, w2: World, id: nat, ports: seq<ServicePort>, g: Goal)
    requires Touched(w0, w1, ports, g) && Tuned(w1, w2, id) && MembersAt(w2, id) == MembersAt(w1, id)
    requires AccessStep(AccessAt(w0, id), AccessAt(w2, id), g.ranges)
    ensures Touched(w0, w2, ports, g)
  {
    hide MemberStep, AccessStep;
    forall j | j in w2.lbs ensures TouchedAt(w0, w2, j, ports, g) {
      assert TouchedAt(w0, w1, j, ports, g);
    }
  }

  lemma TouchedCreated(w0: World, w1: World, w2: World, id: nat, o: CreateOptions, ports: seq<ServicePort>, g: Goal)
    requires Touched(w0, w1, ports, g) && BalancerAdded(w1, w2, id, o) && Framed(w0, w1, o.name)
    requires Desired(o.access, g.ranges)
    ensures Touched(w0, w2, ports, g)
  {
    hide AccessStep, Desired;
    RewriteSteps([], o.access, o.access, g.ranges);
    InLineStep([], o.access, g.ranges);
    forall j | j in w2.lbs ensures TouchedAt(w0, w2, j, ports, g) {
      assert j != id ==> TouchedAt(w0, w1, j, ports, g);
    }
  }

  /** Bringing the members of a prepared load balancer in line, interrupted or not. */
  lemma TouchedFinished(w0: World, w1: World, w2: World, id: nat, p: ServicePort, ports: seq<ServicePort>, g: Goal)
    requires Touched(w0, w1, ports, g) && Prepared(w0, w1, id, p, g) && NodesOnly(w1, w2, id) && p in ports
    requires NodesStep(Keys(MembersAt(w1, id)), Keys(MembersAt(w2, id)), g.nodes, p.nodePort)
    ensures Touched(w0, w2, ports, g)
  {
    hide NodesStep, AccessStep, AccessInLine;
    forall j | j in w2.lbs ensures TouchedAt(w0, w2, j, ports, g) {
      assert TouchedAt(w0, w1, j, ports, g);
    }
  }

  lemma TouchedReaped(w0: World, w1: World, w2: World, ids: set<nat>, ports: seq<ServicePort>, g: Goal)
    requires Touched(w0, w1, ports, g) && Reaped(w1, w2, ids)
    ensures Touched(w0, w2, ports, g)
  {
    hide MemberStep, AccessStep, Reaped;
    forall j: nat | j in w2.lbs ensures TouchedAt(w0, w2, j, ports, g) {
      ReapedAt(w1, w2, ids, j);
      assert TouchedAt(w0, w1, j, ports, g);
    }
  }

  /** The list without the entry that has the ID: overwritten by the last one. */
  function Without(lbs: seq<LoadBalancer>, id: nat): seq<LoadBalancer> {
    var i := IdIndex(lbs, id);
    if i < |lbs| then SwapRemove(lbs, i) else lbs
  }

  function IdIndex(lbs: seq<LoadBalancer>, id: nat): (i: nat)
    ensures i <= |lbs|
  {
    if lbs == [] || lbs[0].id == id then 0 else 1 + IdIndex(lbs[1..], id)
  }

  lemma {:induction false} IdIndexMeaning(lbs: seq<LoadBalancer>, id: nat)
    ensures IdIndex(lbs, id) < |lbs| ==> lbs[IdIndex(lbs, id)].id == id
    ensures forall j :: 0 <= j < IdIndex(lbs, id) ==> lbs[j].id != id
  {
    if lbs != [] && lbs[0].id != id {
      IdIndexMeaning(lbs[1..], id);
    }
  }

  /** Exactly the entry with the ID goes. */
  lemma WithoutMeaning(lbs: seq<LoadBalancer>, id: nat)
    requires DistinctIds(lbs)
    ensures DistinctIds(Without(lbs, id))
    ensures forall y :: y in Without(lbs, id) <==> y in lbs && y.id != id
  {
    var i, rest := IdIndex(lbs, id), Without(lbs, id);
    IdIndexMeaning(lbs, id);
    if i < |lbs| {
      var last := |lbs| - 1;
      forall y | y in lbs && y.id != id ensures y in rest {
        var j :| 0 <= j < |lbs| && lbs[j] == y;
        assert rest[if j == last then i else j] == y;
      }
      forall y | y in rest ensures y in lbs && y.id != id {
        var j :| 0 <= j < |rest| && rest[j] == y;
        assert y == lbs[if j == i then last else j];
      }
    }
  }

  /** What is left of the listed load balancers after each port took the first one on its number. */
  function Left(lbs: seq<LoadBalancer>, ports: seq<ServicePort>): seq<LoadBalancer> {
    if ports == [] then lbs
    else
      var left := Left(lbs, ports[..|ports| - 1]);
      match FirstOnPort(left, ports[|ports| - 1].port)
      case Some(x) => Without(left, x.id)
      case None => left
  }

  /** Port number `port` took `id` out of `lbs`, or `id` is new. */
  ghost predicate Takes(w0: World, lbs: seq<LoadBalancer>, rest: seq<LoadBalancer>, port: int, id: nat) {
    match FirstOnPort(lbs, port)
    case Some(x) => id == x.id && rest == Without(lbs, x.id)
    case None => id !in w0.lbs && rest == lbs
  }

  /** The order of the listing decides which load balancer serves which port. */
  ghost predicate Matches(w0: World, lbs: seq<LoadBalancer>, ports: seq<ServicePort>, served: seq<nat>) {
    |served| <= |ports| &&
    forall k :: 0 <= k < |served| ==>
      Takes(w0, Left(lbs, ports[..k]), Left(lbs, ports[..k + 1]), ports[k].port, served[k])
  }

  lemma MatchesNext(w0: World, lbs: seq<LoadBalancer>, ports: seq<ServicePort>, served: seq<nat>,
                    rest: seq<LoadBalancer>, id: nat)
    requires Matches(w0, lbs, ports, served) && |served| < |ports|
    requires Takes(w0, Left(lbs, ports[..|served|]), rest, ports[|served|].port, id)
    ensures Matches(w0, lbs, ports, served + [id]) && rest == Left(lbs, ports[..|served| + 1])
  {
    hide Takes, Left, Without;
    LeftNext(w0, lbs, ports, |served|, rest, id);
  }

  lemma LeftNext(w0: World, lbs: seq<LoadBalancer>, ports: seq<ServicePort>, k: nat, rest: seq<LoadBalancer>, id: nat)
    requires k < |ports| && Takes(w0, Left(lbs, ports[..k]), rest, ports[k].port, id)
    ensures rest == Left(lbs, ports[..k + 1])
  {
    assert ports[..k + 1][..k] == ports[..k];
  }

  predicate DistinctPorts(ports: seq<ServicePort>) {
    forall i, j :: 0 <= i < j < |ports| ==> ports[i].port != ports[j].port
  }

  /** Protocol and access list of a live load balancer are those that `p` asks for. */
  ghost predicate Agrees(w: World, id: nat, p: ServicePort, g: Goal) {
    && LiveAt(w, id)
    && w.lbs[id].lb.protocol == ToLBProtocol(p.protocol, g.keepClientIP)
    && AccessMatches(w.lbs[id].access, g.ranges)
  }

  /** The load balancer `id` needs no write to serve `p`. */
  ghost predicate InPlace(w: World, id: nat, p: ServicePort, g: Goal) {
    Agrees(w, id, p, g) && Writes(Keys(MembersAt(w, id)), Wanted(g.nodes, p.nodePort)) == 0
  }

  /** The next port finds a load balancer that needs no write. */
  ghost predicate FindsInPlace(w: World, lbs: seq<LoadBalancer>, p: ServicePort, g: Goal) {
    FirstOnPort(lbs, p.port).Some? && InPlace(w, FirstOnPort(lbs, p.port).value.id, p, g)
  }

  ghost predicate FoundInPlace(w: World, lbs: seq<LoadBalancer>, ports: seq<ServicePort>, g: Goal, n: nat)
    requires n <= |ports|
  {
    forall k :: 0 <= k < n ==> FindsInPlace(w, Left(lbs, ports[..k]), ports[k], g)
  }

  /** Each port in turn finds a load balancer that needs no write, and none is left over. */
  ghost predicate InOrder(w: World, lbs: seq<LoadBalancer>, ports: seq<ServicePort>, g: Goal) {
    FoundInPlace(w, lbs, ports, g, |ports|) && Left(lbs, ports) == []
  }

  /** Port numbers are distinct, and the listed load balancers are exactly one for each, all in place. */
  ghost predicate Converged(w: World, lbs: seq<LoadBalancer>, ports: seq<ServicePort>, g: Goal) {
    && DistinctPorts(ports)
    && (forall x, y :: x in lbs && y in lbs && x.port == y.port ==> x == y)
    && (forall p :: p in ports ==> exists x :: x in lbs && x.port == p.port && InPlace(w, x.id, p, g))
    && (forall x :: x in lbs ==> exists p :: p in ports && p.port == x.port)
  }

  /** With distinct numbers the order plays no part. */
  lemma ConvergedInOrder(w: World, lbs: seq<LoadBalancer>, ports: seq<ServicePort>, g: Goal)
    requires Converged(w, lbs, ports, g) && DistinctIds(lbs)
    ensures InOrder(w, lbs, ports, g)
  {
    hide Converged, FindsInPlace;
    assert ports[0..] == ports && ports[..0] == [];
    for k := 0 to |ports|
      invariant FoundInPlace(w, lbs, ports, g, k)
      invariant DistinctIds(Left(lbs, ports[..k])) && Converged(w, Left(lbs, ports[..k]), ports[k..], g)
    {
      ConvergedNext(w, Left(lbs, ports[..k]), ports[k..], g);
      assert ports[k..][0] == ports[k] && ports[k..][1..] == ports[k + 1..] && ports[..k + 1][..k] == ports[..k];
    }
    assert ports[..|ports|] == ports;
    NothingLeft(w, Left(lbs, ports), ports[|ports|..], g);
  }

  lemma NothingLeft(w: World, lbs: seq<LoadBalancer>, ports: seq<ServicePort>, g: Goal)
    requires ports == []
    ensures Converged(w, lbs, ports, g) ==> lbs == []
  {
    assert |lbs| > 0 ==> lbs[0] in lbs;
  }

  lemma ConvergedNext(w: World, lbs: seq<LoadBalancer>, ports: seq<ServicePort>, g: Goal)
    requires Converged(w, lbs, ports, g) && ports != [] && DistinctIds(lbs)
    ensures FindsInPlace(w, lbs, ports[0], g) && FirstOnPort(lbs, ports[0].port).Some?
    ensures var rest := Without(lbs, FirstOnPort(lbs, ports[0].port).value.id);
            DistinctIds(rest) && Converged(w, rest, ports[1..], g)
  {
    hide InPlace, Without;
    FirstOnPortMeaning(lbs, ports[0].port);
    assert ports[0] in ports;
    var x := FirstOnPort(lbs, ports[0].port).value;
    WithoutMeaning(lbs, x.id);
    var rest, more := Without(lbs, x.id), ports[1..];
    forall p | p in more ensures exists y :: y in rest && y.port == p.port && InPlace(w, y.id, p, g) {
      assert p in ports && p.port != ports[0].port;
      var y :| y in lbs && y.port == p.port && InPlace(w, y.id, p, g);
      assert y in rest;
    }
    forall y | y in rest ensures exists p :: p in more && p.port == y.port {
      var p :| p in ports && p.port == y.port;
      assert p in more;
    }
  }

  /** Only what was served has changed, so a listed load balancer is in place now exactly when it was at the start. */
  lemma SameFinds(w0: World, w: World, name: string, rest: seq<LoadBalancer>, served: seq<nat>, p: ServicePort, g: Goal)
    requires Progress(w0, w, name, rest, served)
    ensures FindsInPlace(w, rest, p, g) <==> FindsInPlace(w0, rest, p, g)
  {
    hide Safe, AccessMatches, Writes, LiveNamed;
    FirstOnPortMeaning(rest, p.port);
  }

  /** After a complete call with distinct port numbers everything is in place. */
  lemma ServedConverged(w0: World, w: World, served: seq<nat>, lbs: seq<LoadBalancer>, ports: seq<ServicePort>, g: Goal)
    requires DistinctPorts(ports) && ServedAll(w0, w, served, ports, g) && LiveNamed(w, g.name) == ToSet(served)
    requires Lists(w, g.name, lbs) && ProperNodes(g.nodes) && AllAddressed(g.nodes)
    ensures Converged(w, lbs, ports, g)
  {
    hide InPlace, LiveNamed, ProperNodes, AllAddressed, ServedAll, Lists;
    forall x, y | x in lbs && y in lbs && x.port == y.port ensures x == y {
      var k := ServedBy(w0, w, served, lbs, ports, g, x);
      var l := ServedBy(w0, w, served, lbs, ports, g, y);
      SameListed(w, g.name, lbs, x, y);
    }
    forall p | p in ports ensures exists x :: x in lbs && x.port == p.port && InPlace(w, x.id, p, g) {
      var k :| 0 <= k < |ports| && ports[k] == p;
      var x := ServedListed(w0, w, served, lbs, ports, g, k);
    }
    forall x | x in lbs ensures exists p :: p in ports && p.port == x.port {
      var k := ServedBy(w0, w, served, lbs, ports, g, x);
      assert ports[k] in ports;
    }
  }

  lemma SameListed(w: World, name: string, lbs: seq<LoadBalancer>, x: LoadBalancer, y: LoadBalancer)
    requires Lists(w, name, lbs) && x in lbs && y in lbs
    ensures x.id == y.id ==> x == y
  {
  }

  /** Every listed load balancer serves a port, ... */
  lemma ServedBy(w0: World, w: World, served: seq<nat>, lbs: seq<LoadBalancer>, ports: seq<ServicePort>, g: Goal,
                 x: LoadBalancer) returns (k: nat)
    requires ServedAll(w0, w, served, ports, g) && LiveNamed(w, g.name) == ToSet(served)
    requires Lists(w, g.name, lbs) && x in lbs
    ensures k < |ports| && |served| == |ports| && x.id == served[k] && x.port == ports[k].port
  {
    assert x.id in ToSet(served) by { assert x.id in Ids(lbs); }
    k :| 0 <= k < |served| && served[k] == x.id;
    assert Served(w0, w, served[k], ports[k], g);
  }

  /** ... and every port has one that is listed and in place. */
  lemma ServedListed(w0: World, w: World, served: seq<nat>, lbs: seq<LoadBalancer>, ports: seq<ServicePort>, g: Goal,
                     k: nat) returns (x: LoadBalancer)
    requires ServedAll(w0, w, served, ports, g) && LiveNamed(w, g.name) == ToSet(served) && k < |ports|
    requires Lists(w, g.name, lbs) && ProperNodes(g.nodes) && AllAddressed(g.nodes)
    ensures x in lbs && x.port == ports[k].port && InPlace(w, x.id, ports[k], g)
  {
    hide InPlace, ProperNodes, AllAddressed;
    assert Served(w0, w, served[k], ports[k], g);
    ServedInPlace(w0, w, served[k], ports[k], g);
    assert served[k] in ToSet(served);
    assert served[k] in Ids(lbs);
    x :| x in lbs && x.id == served[k];
  }

  lemma ServedInPlace(w0: World, w: World, id: nat, p: ServicePort, g: Goal)
    requires Served(w0, w, id, p, g) && ProperNodes(g.nodes) && AllAddressed(g.nodes)
    ensures InPlace(w, id, p, g)
  {
    hide ProperNodes, AllAddressed, FinalKeys, Writes;
    InLineMatches(AccessAt(w0, id), w.lbs[id].access, g.ranges);
    WantedNoDup(g.nodes, p.nodePort);
    NoWritesWhenDone(Keys(MembersAt(w0, id)), Wanted(g.nodes, p.nodePort));
  }

  /** Whatever happened since `w0`, a complete call would end each load balancer as it would have then. */
  ghost predicate Recoverable(w0: World, w: World, ports: seq<ServicePort>, g: Goal) {
    && w0.lbs.Keys <= w.lbs.Keys
    && forall id :: id in w.lbs ==> RecoverableAt(w0, w, id, ports, g)
  }

  ghost predicate RecoverableAt(w0: World, w: World, id: nat, ports: seq<ServicePort>, g: Goal)
    requires id in w.lbs
  {
    && AccessStep(AccessAt(w0, id), w.lbs[id].access, g.ranges)
    && forall p :: p in ports && p.port == w.lbs[id].lb.port ==> SameOutcome(w0, w, id, p, g)
  }

  ghost predicate SameOutcome(w0: World, w: World, id: nat, p: ServicePort, g: Goal) {
    FinalKeys(Keys(MembersAt(w, id)), Wanted(g.nodes, p.nodePort)) ==
    FinalKeys(Keys(MembersAt(w0, id)), Wanted(g.nodes, p.nodePort))
  }

  lemma RecoverableNone(w: World, ports: seq<ServicePort>, g: Goal)
    ensures Recoverable(w, w, ports, g)
  {
  }

  lemma StepRecovers(before: set<Key>, now: set<Key>, p: ServicePort, ports: seq<ServicePort>, nodes: seq<Node>)
    requires p in ports && DistinctPorts(ports) && ProperNodes(nodes) && MemberStep(before, now, p.port, ports, nodes)
    ensures FinalKeys(now, Wanted(nodes, p.nodePort)) == FinalKeys(before, Wanted(nodes, p.nodePort))
  {
    hide ProperNodes, FinalKeys, Wanted, Partial, AllAddressed;
    if now != before {
      WantedNoDup(nodes, p.nodePort);
      InterruptionRecovers(before, Wanted(nodes, p.nodePort), now);
    }
  }

  /** One more call, complete or not, that touches each load balancer for at most one port. */
  lemma RecoverableMore(w0: World, w1: World, w2: World, ports: seq<ServicePort>, g: Goal)
    requires Recoverable(w0, w1, ports, g) && Framed(w1, w2, g.name) && Touched(w1, w2, ports, g)
    requires DistinctPorts(ports) && ProperNodes(g.nodes)
    ensures Recoverable(w0, w2, ports, g)
  {
    hide ProperNodes, DistinctPorts, MemberStep, AccessStep, FinalKeys, Wanted;
    forall id | id in w2.lbs ensures RecoverableAt(w0, w2, id, ports, g) {
      assert TouchedAt(w1, w2, id, ports, g);
      assert id in w1.lbs ==> RecoverableAt(w0, w1, id, ports, g) && w2.lbs[id].lb.port == w1.lbs[id].lb.port;
      if id in w1.lbs {
        AccessSteps(AccessAt(w0, id), AccessAt(w1, id), AccessAt(w2, id), g.ranges);
      }
      forall p | p in ports && p.port == w2.lbs[id].lb.port ensures SameOutcome(w0, w2, id, p, g) {
        StepRecovers(Keys(MembersAt(w1, id)), Keys(MembersAt(w2, id)), p, ports, g.nodes);
        assert id in w1.lbs ==> SameOutcome(w0, w1, id, p, g);
      }
    }
  }

  /** A complete call after interrupted ones serves every port as if it had been the only call. */
  lemma RecoveredServed(w0: World, w1: World, w2: World, served: seq<nat>, ports: seq<ServicePort>, g: Goal)
    requires Recoverable(w0, w1, ports, g) && Framed(w1, w2, g.name) && ServedAll(w1, w2, served, ports, g)
    ensures ServedAll(w0, w2, served, ports, g)
  {
    hide AccessStep, AccessInLine, FinalKeys, Wanted, LiveNamed;
    forall k | 0 <= k < |ports| ensures Served(w0, w2, served[k], ports[k], g) {
      var id, p := served[k], ports[k];
      assert Served(w1, w2, id, p, g);
      if id in w1.lbs {
        assert w2.lbs[id].lb.port == w1.lbs[id].lb.port;
        assert RecoverableAt(w0, w1, id, ports, g) && SameOutcome(w0, w1, id, p, g);
        AccessSteps(AccessAt(w0, id), AccessAt(w1, id), AccessAt(w2, id), g.ranges);
      }
    }
  }
}
