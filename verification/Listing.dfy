/** Listing load balancers by name with a marker loop, and picking one by port. */
module Listing {
  import opened Basics
  import opened Resources
  import opened Text
  import opened Paging
  import opened Clouds

  predicate Keeps(lb: LoadBalancer, name: string) {
    lb.name == name && IsLive(lb.status)
  }

  function Valids(all: seq<LoadBalancer>, name: string): seq<LoadBalancer> {
    if all == [] then []
    else
      var front := Valids(all[..|all| - 1], name);
      if Keeps(all[|all| - 1], name) then front + [all[|all| - 1]] else front
  }

  lemma {:induction false} ValidsElements(all: seq<LoadBalancer>, name: string)
    ensures forall x :: x in Valids(all, name) <==>
                          x in all && x.name == name && x.status != Deleted && x.status != PendingDelete
    ensures DistinctIds(all) ==> DistinctIds(Valids(all, name))
  {
    if all != [] {
      var front, last := Valids(all[..|all| - 1], name), all[|all| - 1];
      ValidsElements(all[..|all| - 1], name);
      assert all == all[..|all| - 1] + [last];
      if DistinctIds(all) {
        forall x | x in front ensures x.id != last.id {
          assert x in all[..|all| - 1];
        }
      }
    }
  }

  /** The order of the listing is kept. */
  lemma {:induction false} ValidsOrder(all: seq<LoadBalancer>, name: string) returns (at: seq<nat>)
    ensures |at| == |Valids(all, name)|
    ensures forall i :: 0 <= i < |at| ==> at[i] < |all| && all[at[i]] == Valids(all, name)[i]
    ensures forall i, j :: 0 <= i < j < |at| ==> at[i] < at[j]
  {
    at := [];
    if all != [] {
      var n := |all| - 1;
      at := ValidsOrder(all[..n], name);
      if Keeps(all[n], name) {
        at := at + [n];
      }
    }
  }

  function Ids(lbs: seq<LoadBalancer>): set<nat> {
    set x | x in lbs :: x.id
  }

  /** `lbs` are the live load balancers of that name, each once and as they are in `w`. */
  ghost predicate Lists(w: World, name: string, lbs: seq<LoadBalancer>) {
    && DistinctIds(lbs)
    && (forall x :: x in lbs ==> x.id in w.lbs && w.lbs[x.id].lb == x)
    && Ids(lbs) == LiveNamed(w, name)
  }

  lemma CollectionDistinct(w: World)
    requires ValidWorld(w)
    ensures DistinctIds(Collection(w))
    ensures forall x :: x in Collection(w) <==> x.id in w.lbs && w.lbs[x.id].lb == x
  {
    var all := Collection(w);
    forall i | 0 <= i < |all| ensures all[i].id == w.order[i] {
      assert w.order[i] in w.lbs;
    }
    forall x: LoadBalancer | x.id in w.lbs && w.lbs[x.id].lb == x ensures x in all {
      assert x.id in w.order;
      var i :| 0 <= i < |w.order| && w.order[i] == x.id;
      assert all[i] == x;
    }
  }

  lemma ValidsList(w: World, name: string)
    requires ValidWorld(w)
    ensures Lists(w, name, Valids(Collection(w), name))
    ensures forall id :: id in LiveNamed(w, name) <==>
                           id in w.lbs && w.lbs[id].lb.name == name &&
                           w.lbs[id].lb.status in {Active, Broken, Build, PendingUpdate, Suspended}
  {
    var all, lbs := Collection(w), Valids(Collection(w), name);
    CollectionDistinct(w);
    ValidsElements(all, name);
    forall id | id in LiveNamed(w, name) ensures id in Ids(lbs) {
      assert w.lbs[id].lb in lbs && w.lbs[id].lb.id == id;
    }
  }

  /** Against a healthy server the marker loop finds every live load balancer of the name exactly once. */
  method GetLoadBalancersByName(cloud: Cloud, name: string) returns (r: Result<seq<LoadBalancer>>)
    requires cloud.Valid()
    modifies cloud`requests, cloud`faults
    ensures cloud.Valid()
    ensures cloud.faults == old(cloud.faults) + if r.Success? then 0 else 1
    ensures r.Success? ==> r.value == Valids(Collection(cloud.w), name) && Lists(cloud.w, name, r.value)
  {
    CollectionDistinct(cloud.w);
    var collected := CollectPages(cloud, Collection(cloud.w));
    if collected.Fail? {
      return collected;
    }
    var validLBs := FilterValid(collected.value, name);
    HealthyCollectsAll(|Collection(cloud.w)|, cloud.plan, old(cloud.requests), 0);
    assert Collection(cloud.w)[..|cloud.w.order|] == Collection(cloud.w);
    ValidsList(cloud.w, name);
    return Success(validLBs);
  }

  /** The marker loop against any server: a prefix of the collection, each item once and in order. */
  method CollectPages(cloud: Cloud, ghost all: seq<LoadBalancer>) returns (r: Result<seq<LoadBalancer>>)
    requires ValidWorld(cloud.w) && all == Collection(cloud.w) && DistinctIds(all)
    modifies cloud`requests, cloud`faults
    ensures cloud.faults == old(cloud.faults) + if r.Success? then 0 else 1
    ensures r.Success? ==> r.value == all[..FinalPos(|all|, cloud.plan, old(cloud.requests), 0)]
  {
    var allLoadbalancers: seq<LoadBalancer> := [];
    var oldMarker, optsMarker := "", "";
    ghost var pos := 0;
    while true
      invariant cloud.faults == old(cloud.faults)
      invariant pos <= |all| && allLoadbalancers == all[..pos]
      invariant oldMarker == optsMarker == Marker(all, pos)
      invariant FinalPos(|all|, cloud.plan, cloud.requests, pos) == FinalPos(|all|, cloud.plan, old(cloud.requests), 0)
      decreases |all| - pos
    {
      ghost var choice := cloud.plan(cloud.requests);
      ghost var end := PageEnd(|all|, pos, choice);
      var reply := cloud.ListPage(optsMarker);
      if reply.Err? {
        return Fail(ErrApi(reply.error));
      }
      var tempLbs := reply.value;
      PageStep(all, pos, choice, tempLbs);
      if |tempLbs| == 0 {
        break;
      }
      var marker := FormatUint(tempLbs[|tempLbs| - 1].id);
      if marker == oldMarker {
        break;
      }
      var startIndex := 0;
      if oldMarker != "" && oldMarker == FormatUint(tempLbs[0].id) {
        startIndex := 1;
      }
      allLoadbalancers := allLoadbalancers + tempLbs[startIndex..];
      oldMarker := marker;
      optsMarker := marker;
      pos := end;
    }
    return Success(allLoadbalancers);
  }

  /** What one page means to the loop: it is empty or ends at the old marker exactly when it brings nothing new. */
  lemma PageStep(all: seq<LoadBalancer>, pos: nat, c: PageChoice, page: seq<LoadBalancer>)
    requires DistinctIds(all) && pos <= |all| && page == PageAfter(all, Marker(all, pos), c)
    ensures var end := PageEnd(|all|, pos, c);
            var repeated := Marker(all, pos) != "" && |page| > 0 && Marker(all, pos) == FormatUint(page[0].id);
            if |page| == 0 || FormatUint(page[|page| - 1].id) == Marker(all, pos) then end <= pos
            else
              && pos < end
              && all[..pos] + page[if repeated then 1 else 0..] == all[..end]
              && FormatUint(page[|page| - 1].id) == Marker(all, end)
  {
    hide FormatUint, PageAfter, Find, DistinctIds;
    var end, start := PageEnd(|all|, pos, c), PageStart(pos, c);
    PageIsRun(all, pos, c);
    if start < end {
      IsMarker(all, pos, start);
      IsMarker(all, pos, end - 1);
      assert page[0] == all[start] && page[|page| - 1] == all[end - 1];
      assert all[..pos] + all[start..end][pos - start..] == all[..end];
    }
  }

  /** An item prints as the marker exactly when it is the last one collected. */
  lemma IsMarker(all: seq<LoadBalancer>, pos: nat, i: nat)
    requires DistinctIds(all) && pos <= |all| && i < |all|
    ensures FormatUint(all[i].id) == Marker(all, pos) <==> pos > 0 && i == pos - 1
    ensures Marker(all, pos) == "" <==> pos == 0
  {
    FormatUintNonempty(all[i].id);
    if pos > 0 {
      FormatUintNonempty(all[pos - 1].id);
      FormatUintInjective(all[i].id, all[pos - 1].id);
    }
  }

  method FilterValid(all: seq<LoadBalancer>, name: string) returns (validLBs: seq<LoadBalancer>)
    ensures validLBs == Valids(all, name)
  {
    validLBs := [];
    for i := 0 to |all|
      invariant validLBs == Valids(all[..i], name)
    {
      assert all[..i + 1][..i] == all[..i];
      if all[i].name == name && (all[i].status != Deleted && all[i].status != PendingDelete) {
        validLBs := validLBs + [all[i]];
      }
    }
    assert all[..|all|] == all;
  }

  /** The first load balancer on the port's number. */
  method GetLoadBalancerByPort(lbs: seq<LoadBalancer>, port: ServicePort) returns (lb: Option<LoadBalancer>)
    ensures lb == FirstOnPort(lbs, port.port)
  {
    for i := 0 to |lbs|
      invariant FirstOnPort(lbs, port.port) == FirstOnPort(lbs[i..], port.port)
    {
      if lbs[i].port == port.port {
        return Some(lbs[i]);
      }
    }
    return None;
  }

  function FirstOnPort(lbs: seq<LoadBalancer>, port: int): Option<LoadBalancer> {
    if lbs == [] then None
    else if lbs[0].port == port then Some(lbs[0])
    else FirstOnPort(lbs[1..], port)
  }

  lemma {:induction false} FirstOnPortMeaning(lbs: seq<LoadBalancer>, port: int)
    ensures FirstOnPort(lbs, port).None? <==> forall x :: x in lbs ==> x.port != port
    ensures FirstOnPort(lbs, port).Some? ==>
              FirstOnPort(lbs, port).value in lbs && FirstOnPort(lbs, port).value.port == port
  {
    if lbs != [] {
      FirstOnPortMeaning(lbs[1..], port);
      assert lbs == [lbs[0]] + lbs[1..];
    }
  }

  /** What is found stands first among the entries on the number. */
  lemma {:induction false} FirstOnPortFirst(lbs: seq<LoadBalancer>, port: int) returns (i: nat)
    requires FirstOnPort(lbs, port).Some?
    ensures i < |lbs| && lbs[i] == FirstOnPort(lbs, port).value && lbs[i].port == port
    ensures forall j :: 0 <= j < i ==> lbs[j].port != port
  {
    i := 0;
    if lbs[0].port != port {
      var k := FirstOnPortFirst(lbs[1..], port);
      i := k + 1;
    }
  }
}
