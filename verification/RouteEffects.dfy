/** The effects of creating and deleting a route, and what an unwound failure leaves behind. */
module RouteEffects {
  import opened Basics
  import opened Slices
  import opened Neutron

  /** What the controller is asked to create or delete. */
  datatype CloudRoute = CloudRoute(cidr: string, targetNode: string, blackhole: bool)

  predicate Deletes(item: Route, route: CloudRoute, addr: string) {
    item.cidr == route.cidr && (item.nextHop == addr || (route.blackhole && item.nextHop == route.targetNode))
  }

  /** The first entry to delete, else the length. */
  function DeleteIndex(routes: seq<Route>, route: CloudRoute, addr: string): (i: nat)
    ensures i <= |routes|
  {
    if routes == [] || Deletes(routes[0], route, addr) then 0 else 1 + DeleteIndex(routes[1..], route, addr)
  }

  function PairIndex(pairs: seq<Pair>, ip: string): (i: nat)
    ensures i <= |pairs|
  {
    if pairs == [] || pairs[0].ip == ip then 0 else 1 + PairIndex(pairs[1..], ip)
  }

  function WithPair(pairs: seq<Pair>, ip: string): seq<Pair> {
    if PairIndex(pairs, ip) < |pairs| then pairs else pairs + [Pair(ip, "")]
  }

  function WithoutPair(pairs: seq<Pair>, ip: string): seq<Pair> {
    var i := PairIndex(pairs, ip);
    if i < |pairs| then SwapRemove(pairs, i) else pairs
  }

  lemma {:induction false} DeleteIndexMeaning(routes: seq<Route>, route: CloudRoute, addr: string)
    ensures var i := DeleteIndex(routes, route, addr);
            && (i < |routes| ==> Deletes(routes[i], route, addr))
            && forall j :: 0 <= j < i ==> !Deletes(routes[j], route, addr)
  {
    if routes != [] && !Deletes(routes[0], route, addr) {
      DeleteIndexMeaning(routes[1..], route, addr);
    }
  }

  lemma {:induction false} PairIndexMeaning(pairs: seq<Pair>, ip: string)
    ensures var i := PairIndex(pairs, ip);
            && (i < |pairs| ==> pairs[i].ip == ip)
            && forall j :: 0 <= j < i ==> pairs[j].ip != ip
  {
    if pairs != [] && pairs[0].ip != ip {
      PairIndexMeaning(pairs[1..], ip);
    }
  }

  /** The old pairs stand first; a pair for the address is there, and it was added exactly when there was none. */
  ghost predicate PairAdded(before: seq<Pair>, after: seq<Pair>, ip: string) {
    && before <= after
    && (exists q :: q in after && q.ip == ip)
    && if exists q :: q in before && q.ip == ip then after == before else after == before + [Pair(ip, "")]
  }

  /** The first pair for the address is gone, overwritten by the last one, if there was any. */
  ghost predicate PairRemoved(before: seq<Pair>, after: seq<Pair>, ip: string) {
    if exists q :: q in before && q.ip == ip
    then exists i: nat :: Overwritten(before, after, i) && before[i].ip == ip
                          && forall j :: 0 <= j < i ==> before[j].ip != ip
    else after == before
  }

  /** An entry for the route's CIDR through this address, or through the target itself if the route is orphaned. */
  ghost predicate Carries(item: Route, route: CloudRoute, addr: string) {
    item.cidr == route.cidr && (item.nextHop == addr || (route.blackhole && item.nextHop == route.targetNode))
  }

  /** The first such entry is gone, overwritten by the last one. */
  ghost predicate RouteRemoved(before: seq<Route>, after: seq<Route>, route: CloudRoute, addr: string) {
    exists i: nat :: Overwritten(before, after, i) && Carries(before[i], route, addr)
                && forall j :: 0 <= j < i ==> !Carries(before[j], route, addr)
  }

  lemma PairIndexExists(pairs: seq<Pair>, ip: string)
    ensures PairIndex(pairs, ip) < |pairs| <==> exists q :: q in pairs && q.ip == ip
  {
    PairIndexMeaning(pairs, ip);
    if q :| q in pairs && q.ip == ip {
      var j :| 0 <= j < |pairs| && pairs[j] == q;
    }
  }

  lemma WithPairMeaning(pairs: seq<Pair>, ip: string)
    ensures PairAdded(pairs, WithPair(pairs, ip), ip)
  {
    PairIndexExists(pairs, ip);
    assert Pair(ip, "") in pairs + [Pair(ip, "")];
  }

  lemma WithoutPairMeaning(pairs: seq<Pair>, ip: string)
    ensures PairRemoved(pairs, WithoutPair(pairs, ip), ip)
  {
    hide SwapRemove, Overwritten;
    PairIndexExists(pairs, ip);
    PairIndexMeaning(pairs, ip);
    if PairIndex(pairs, ip) < |pairs| {
      SwapRemoveMeaning(pairs, PairIndex(pairs, ip));
    }
  }

  /** What a successful create means for the router and the port. */
  lemma CreateMeaning(n0: Net, n: Net, x: Route, port: Result<string>, log: seq<Write>)
    requires CreateDone(n0, n, x, port, log) && x !in n0.routes
    ensures n.routes == n0.routes + [x]
    ensures port.Success? && port.value in n0.pairs && n.pairs.Keys == n0.pairs.Keys
    ensures PairAdded(n0.pairs[port.value], n.pairs[port.value], x.cidr)
    ensures forall id :: id in n0.pairs && id != port.value ==> n.pairs[id] == n0.pairs[id]
  {
    hide PairAdded, WithPair;
    WithPairMeaning(n0.pairs[port.value], x.cidr);
  }

  /** What a successful delete means for the router and the port. */
  lemma DeleteMeaning(n0: Net, n: Net, route: CloudRoute, addr: string, port: Result<string>, log: seq<Write>)
    requires DeleteDone(n0, n, route, addr, port, log)
    ensures (forall item :: item in n0.routes ==> !Carries(item, route, addr)) ==> n == n0
    ensures (exists item :: item in n0.routes && Carries(item, route, addr)) ==>
              && RouteRemoved(n0.routes, n.routes, route, addr)
              && if route.blackhole then n.pairs == n0.pairs
                 else
                   && port.Success? && port.value in n0.pairs && n.pairs.Keys == n0.pairs.Keys
                   && PairRemoved(n0.pairs[port.value], n.pairs[port.value], route.cidr)
                   && forall id :: id in n0.pairs && id != port.value ==> n.pairs[id] == n0.pairs[id]
  {
    hide PairRemoved, WithoutPair, SwapRemove, Overwritten;
    var i := DeleteIndex(n0.routes, route, addr);
    DeleteIndexMeaning(n0.routes, route, addr);
    forall j | 0 <= j < |n0.routes|
      ensures Carries(n0.routes[j], route, addr) <==> Deletes(n0.routes[j], route, addr)
    {}
    if i < |n0.routes| {
      SwapRemoveMeaning(n0.routes, i);
      assert n0.routes[i] in n0.routes;
      if !route.blackhole {
        WithoutPairMeaning(n0.pairs[port.value], route.cidr);
      }
    }
  }

  /** A successful create: nothing to do, or the route and a pair for its CIDR are there and nothing was reverted. */
  ghost predicate CreateDone(n0: Net, n: Net, x: Route, port: Result<string>, log: seq<Write>) {
    if x in n0.routes then n == n0 && log == []
    else
      && port.Success? && port.value in n0.pairs
      && var pairs := n0.pairs[port.value];
      && n.routes == n0.routes + [x]
      && n.pairs == n0.pairs[port.value := WithPair(pairs, x.cidr)]
      && log == [RouterPut(n0.routes + [x], true, true)]
                + if WithPair(pairs, x.cidr) == pairs then []
                  else [PortPut(port.value, WithPair(pairs, x.cidr), true, true)]
  }

  /** A successful delete: nothing to do, or one entry is gone, and with it the pair unless the route is orphaned. */
  ghost predicate DeleteDone(n0: Net, n: Net, route: CloudRoute, addr: string, port: Result<string>, log: seq<Write>) {
    var i := DeleteIndex(n0.routes, route, addr);
    if i == |n0.routes| then n == n0 && log == []
    else
      && n.routes == SwapRemove(n0.routes, i)
      && if route.blackhole then n.pairs == n0.pairs && log == [RouterPut(n.routes, true, true)]
         else
           && port.Success? && port.value in n0.pairs
           && var pairs := n0.pairs[port.value];
           && n.pairs == n0.pairs[port.value := WithoutPair(pairs, route.cidr)]
           && log == [RouterPut(n.routes, true, true)]
                     + if WithoutPair(pairs, route.cidr) == pairs then []
                       else [PortPut(port.value, WithoutPair(pairs, route.cidr), true, true)]
  }

  /** The pair write that may fail last. */
  ghost predicate PairWrite(n0: Net, e: Write, cidr: string, adding: bool) {
    && e.PortPut? && e.port in n0.pairs
    && var pairs := n0.pairs[e.port];
    && e.pairs == (if adding then WithPair(pairs, cidr) else WithoutPair(pairs, cidr))
    && e.pairs != pairs
  }

  /**
   * A failed transaction that first sends the routes `to` and, once that was acknowledged, unwinds by sending `back`.
   */
  ghost predicate Unwound(n0: Net, n: Net, log: seq<Write>, to: seq<Route>, back: seq<Route>, cidr: string,
                          adding: bool) {
    if |log| == 0 then n == n0
    else if |log| == 1 then
      log[0] == RouterPut(to, log[0].applied, false) && n == n0.(routes := if log[0].applied then to else n0.routes)
    else
      var undo := log[|log| - 1];
      && log[0] == RouterPut(to, true, true)
      && undo.RouterPut? && undo.routes == back
      && n.routes == (if undo.applied then back else to)
      && if |log| == 2 then n.pairs == n0.pairs
         else
           && |log| == 3 && PairWrite(n0, log[1], cidr, adding) && !log[1].acked
           && n.pairs == if log[1].applied then n0.pairs[log[1].port := log[1].pairs] else n0.pairs
  }

  /** What the caller would need to know: nothing took effect, or the undo did and no lost pair write. */
  predicate Undone(log: seq<Write>) {
    if |log| == 0 then true
    else if |log| == 1 then !log[0].applied
    else log[|log| - 1].applied && (|log| == 3 ==> !log[1].applied)
  }

  /** Creating is all or nothing: a failure leaves the exact original state exactly when the undo took effect. */
  lemma CreateAllOrNothing(n0: Net, n: Net, log: seq<Write>, x: Route)
    requires Unwound(n0, n, log, n0.routes + [x], n0.routes, x.cidr, true)
    ensures n == n0 <==> Undone(log)
  {
  }

  /**
   * Deleting overwrites the fetched list in place before the unwinder remembers it, so the undo sends the list
   * with the deleted position overwritten: it restores the original exactly when that position equals the last.
   */
  lemma DeleteUndoExactly(n0: Net, n: Net, log: seq<Write>, i: nat, cidr: string)
    requires i < |n0.routes|
    requires var last := n0.routes[|n0.routes| - 1];
             Unwound(n0, n, log, SwapRemove(n0.routes, i), n0.routes[i := last], cidr, false)
    ensures n == n0 <==>
              Undone(log) && (|log| >= 2 ==> n0.routes[i] == n0.routes[|n0.routes| - 1])
    ensures |log| >= 2 && Undone(log) ==> n == n0.(routes := n0.routes[i := n0.routes[|n0.routes| - 1]])
  {
  }

  /** The entry to delete is there and equals the last one. */
  ghost predicate LastDeleted(routes: seq<Route>, route: CloudRoute, addr: string) {
    var i := DeleteIndex(routes, route, addr);
    i < |routes| && routes[i] == routes[|routes| - 1]
  }

  /** What a call writes, and whether it succeeds. */
  datatype Outcome = Outcome(writes: seq<Write>, ok: bool)

  /** The pair step and the undo that its failure causes, when the requests from the k-th on are answered as told. */
  function FinishOutcome(n: Net, back: seq<Route>, port: Result<string>, cidr: string, adding: bool,
                         answers: nat -> Answer, k: nat): Outcome {
    if port.Fail? then Outcome([PutRoutes(back, answers(k))], false)
    else if !answers(k).Done? || port.value !in n.pairs then Outcome([PutRoutes(back, answers(k + 1))], false)
    else
      var before := n.pairs[port.value];
      var pairs := if adding then WithPair(before, cidr) else WithoutPair(before, cidr);
      if pairs == before then Outcome([], true)
      else
        var put := PutPairs(port.value, pairs, answers(k + 1));
        if put.acked then Outcome([put], true) else Outcome([put, PutRoutes(back, answers(k + 2))], false)
  }

  /** Sending the routes `to`, then the rest, unless that write is not acknowledged or there is no port to follow. */
  function SendOutcome(n0: Net, to: seq<Route>, back: seq<Route>, port: Option<Result<string>>, cidr: string,
                       adding: bool, answers: nat -> Answer, k: nat): Outcome {
    var put := PutRoutes(to, answers(k));
    if !put.acked || port.None? then Outcome([put], put.acked)
    else
      var rest := FinishOutcome(n0, back, port.value, cidr, adding, answers, k + 1);
      Outcome([put] + rest.writes, rest.ok)
  }

  /** CreateRoute in full. */
  function CreateOutcome(n0: Net, cidr: string, hop: Result<string>, port: Result<string>,
                         answers: nat -> Answer, k: nat): Outcome {
    if hop.Fail? || !answers(k).Done? then Outcome([], false)
    else
      var x := Route(cidr, hop.value);
      if x in n0.routes then Outcome([], true)
      else SendOutcome(n0, n0.routes + [x], n0.routes, Some(port), cidr, true, answers, k + 1)
  }

  /** A create succeeds exactly when there is a next hop and nothing needed on the way is refused or missing. */
  lemma CreateSucceedsExactly(n0: Net, cidr: string, hop: Result<string>, port: Result<string>,
                              answers: nat -> Answer, k: nat)
    ensures CreateOutcome(n0, cidr, hop, port, answers, k).ok <==>
              && hop.Success? && answers(k) == Done
              && (Route(cidr, hop.value) in n0.routes ||
                  (answers(k + 1) == Done && port.Success? && answers(k + 2) == Done && port.value in n0.pairs &&
                   ((exists q :: q in n0.pairs[port.value] && q.ip == cidr) || answers(k + 3) == Done)))
  {
    if port.Success? && port.value in n0.pairs {
      PairIndexExists(n0.pairs[port.value], cidr);
    }
  }

  /** DeleteRoute in full. */
  function DeleteOutcome(n0: Net, route: CloudRoute, hop: Result<string>, port: Result<string>,
                         answers: nat -> Answer, k: nat): Outcome {
    if hop.Fail? || !answers(k).Done? then Outcome([], false)
    else
      var i := DeleteIndex(n0.routes, route, hop.value);
      if i == |n0.routes| then Outcome([], true)
      else
        SendOutcome(n0, SwapRemove(n0.routes, i), n0.routes[i := n0.routes[|n0.routes| - 1]],
                    if route.blackhole then None else Some(port), route.cidr, false, answers, k + 1)
  }

  /** A delete succeeds exactly when it knows what to look for and nothing needed on the way is refused or missing. */
  lemma DeleteSucceedsExactly(n0: Net, route: CloudRoute, hop: Result<string>, port: Result<string>,
                              answers: nat -> Answer, k: nat)
    ensures DeleteOutcome(n0, route, hop, port, answers, k).ok <==>
              && hop.Success? && answers(k) == Done
              && ((forall item :: item in n0.routes ==> !Carries(item, route, hop.value)) ||
                  (answers(k + 1) == Done &&
                   (route.blackhole ||
                    (port.Success? && answers(k + 2) == Done && port.value in n0.pairs &&
                     ((forall q :: q in n0.pairs[port.value] ==> q.ip != route.cidr) || answers(k + 3) == Done)))))
  {
    hide DeleteIndex, PairIndex;
    if hop.Success? {
      DeleteIndexMeaning(n0.routes, route, hop.value);
      var i := DeleteIndex(n0.routes, route, hop.value);
      assert i < |n0.routes| ==> n0.routes[i] in n0.routes && Carries(n0.routes[i], route, hop.value);
    }
    if port.Success? && port.value in n0.pairs {
      var pairs := n0.pairs[port.value];
      PairIndexExists(pairs, route.cidr);
      assert PairIndex(pairs, route.cidr) < |pairs| ==> |WithoutPair(pairs, route.cidr)| == |pairs| - 1;
    }
  }

  lemma {:induction false} DeleteIndexAppended(routes: seq<Route>, route: CloudRoute, addr: string)
    requires !route.blackhole && Route(route.cidr, addr) !in routes
    ensures DeleteIndex(routes + [Route(route.cidr, addr)], route, addr) == |routes|
  {
    var x := Route(route.cidr, addr);
    if routes != [] {
      DeleteIndexAppended(routes[1..], route, addr);
      assert (routes + [x])[1..] == routes[1..] + [x];
      assert routes[0] in routes;
    }
  }

  lemma {:induction false} PairIndexAppended(pairs: seq<Pair>, ip: string)
    requires PairIndex(pairs, ip) == |pairs|
    ensures PairIndex(pairs + [Pair(ip, "")], ip) == |pairs|
  {
    if pairs != [] {
      PairIndexAppended(pairs[1..], ip);
      assert (pairs + [Pair(ip, "")])[1..] == pairs[1..] + [Pair(ip, "")];
    }
  }

  /** Adding then removing the pair of a CIDR restores the pairs exactly when there was none. */
  lemma PairRoundTrip(pairs: seq<Pair>, ip: string)
    ensures WithoutPair(WithPair(pairs, ip), ip) == pairs <==> PairIndex(pairs, ip) == |pairs|
  {
    if PairIndex(pairs, ip) == |pairs| {
      PairIndexAppended(pairs, ip);
      assert WithoutPair(WithPair(pairs, ip), ip) == pairs;
    } else {
      assert |WithoutPair(WithPair(pairs, ip), ip)| == |pairs| - 1;
    }
  }

  /** Create then delete is the identity exactly when neither the route nor a pair for its CIDR was there. */
  lemma CreateDeleteIdentity(n0: Net, n1: Net, n2: Net, route: CloudRoute, addr: string, port: Result<string>,
                             log: seq<Write>, log': seq<Write>)
    requires !route.blackhole
    requires CreateDone(n0, n1, Route(route.cidr, addr), port, log) && DeleteDone(n1, n2, route, addr, port, log')
    ensures n2 == n0 <==>
              Route(route.cidr, addr) !in n0.routes && port.Success? && port.value in n0.pairs &&
              PairIndex(n0.pairs[port.value], route.cidr) == |n0.pairs[port.value]|
  {
    var x := Route(route.cidr, addr);
    DeleteIndexMeaning(n1.routes, route, addr);
    if x in n0.routes {
      var j :| 0 <= j < |n0.routes| && n0.routes[j] == x;
      assert Deletes(n1.routes[j], route, addr);
      assert |n2.routes| == |n0.routes| - 1;
    } else {
      DeleteIndexAppended(n0.routes, route, addr);
      assert n2.routes == n0.routes;
      PairRoundTrip(n0.pairs[port.value], route.cidr);
      assert n2.pairs == n0.pairs[port.value := WithoutPair(WithPair(n0.pairs[port.value], route.cidr), route.cidr)];
      assert n2.pairs[port.value] == WithoutPair(WithPair(n0.pairs[port.value], route.cidr), route.cidr);
    }
  }

  /** Deleting an orphaned route as it was listed removes exactly one entry equal to it and touches no port. */
  lemma OrphanDeleted(n0: Net, n: Net, k: nat, port: Result<string>, log: seq<Write>)
    requires k < |n0.routes| && forall r :: r in n0.routes ==> r.nextHop != ""
    requires DeleteDone(n0, n, CloudRoute(n0.routes[k].cidr, n0.routes[k].nextHop, true), "", port, log)
    ensures multiset(n.routes) + multiset{n0.routes[k]} == multiset(n0.routes) && n.pairs == n0.pairs
  {
    var route := CloudRoute(n0.routes[k].cidr, n0.routes[k].nextHop, true);
    var i := DeleteIndex(n0.routes, route, "");
    DeleteIndexMeaning(n0.routes, route, "");
    assert Deletes(n0.routes[k], route, "");
    assert i <= k && n0.routes[i] in n0.routes;
    SwapRemoveMultiset(n0.routes, i);
  }

  /** Deleting a route of a known node as it was listed removes an entry exactly when one uses the preferred address. */
  lemma NodeRouteDeletedExactly(n0: Net, n: Net, route: CloudRoute, addr: string, port: Result<string>, log: seq<Write>)
    requires !route.blackhole && DeleteDone(n0, n, route, addr, port, log)
    ensures if Route(route.cidr, addr) in n0.routes
            then multiset(n.routes) + multiset{Route(route.cidr, addr)} == multiset(n0.routes)
            else n == n0
  {
    var i := DeleteIndex(n0.routes, route, addr);
    DeleteIndexMeaning(n0.routes, route, addr);
    if Route(route.cidr, addr) in n0.routes {
      var j :| 0 <= j < |n0.routes| && n0.routes[j] == Route(route.cidr, addr);
      assert Deletes(n0.routes[j], route, addr);
      SwapRemoveMultiset(n0.routes, i);
    }
  }

  /** The pair step failed: it wrote nothing, or its one write was not acknowledged. */
  ghost predicate PairsFailed(n0: Net, n: Net, log: seq<Write>, cidr: string, adding: bool) {
    if log == [] then n == n0
    else
      && |log| == 1 && PairWrite(n0, log[0], cidr, adding) && !log[0].acked
      && n == if log[0].applied then n0.(pairs := n0.pairs[log[0].port := log[0].pairs]) else n0
  }

  /** The pair step succeeded. */
  ghost predicate PairsChanged(n0: Net, n: Net, port: Result<string>, cidr: string, adding: bool, log: seq<Write>) {
    && port.Success? && port.value in n0.pairs
    && var pairs := if adding then WithPair(n0.pairs[port.value], cidr) else WithoutPair(n0.pairs[port.value], cidr);
    && n == n0.(pairs := n0.pairs[port.value := pairs])
    && log == if pairs == n0.pairs[port.value] then [] else [PortPut(port.value, pairs, true, true)]
  }

  /** A failed pair step and the undo that follows it. */
  lemma UnwoundAfterPairs(n0: Net, n1: Net, n2: Net, n3: Net, log: seq<Write>, undo: Write, to: seq<Route>,
                          back: seq<Route>, cidr: string, adding: bool)
    requires n1 == n0.(routes := to) && PairsFailed(n1, n2, log, cidr, adding)
    requires undo.RouterPut? && undo.routes == back
    requires n3 == if undo.applied then n2.(routes := back) else n2
    ensures Unwound(n0, n3, [RouterPut(to, true, true)] + log + [undo], to, back, cidr, adding)
  {
  }

  lemma CreatedAfterPairs(n0: Net, n1: Net, n2: Net, x: Route, port: Result<string>, log: seq<Write>)
    requires x !in n0.routes && n1 == n0.(routes := n0.routes + [x])
    requires PairsChanged(n1, n2, port, x.cidr, true, log)
    ensures CreateDone(n0, n2, x, port, [RouterPut(n0.routes + [x], true, true)] + log)
  {
  }

  lemma DeletedAfterPairs(n0: Net, n1: Net, n2: Net, route: CloudRoute, addr: string, port: Result<string>,
                          log: seq<Write>)
    requires !route.blackhole && DeleteIndex(n0.routes, route, addr) < |n0.routes|
    requires n1 == n0.(routes := SwapRemove(n0.routes, DeleteIndex(n0.routes, route, addr)))
    requires PairsChanged(n1, n2, port, route.cidr, false, log)
    ensures DeleteDone(n0, n2, route, addr, port, [RouterPut(n1.routes, true, true)] + log)
  {
  }
}
