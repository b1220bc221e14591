/**
 * The remote load balancer service. Every call may fail, and a failed write may still have taken effect.
 * A 404 is answered only for what is not there; there is no other writer.
 */
module Clouds {
  import opened Basics
  import opened Sequences
  import opened Resources
  import opened Paging
  import opened Traces

  function Collection(w: World): seq<LoadBalancer>
    requires forall id :: id in w.order ==> id in w.lbs
  {
    seq(|w.order|, i requires 0 <= i < |w.order| => w.lbs[w.order[i]].lb)
  }

  function WithoutMember(ms: seq<Member>, id: nat): seq<Member> {
    if ms == [] then []
    else
      var front := WithoutMember(ms[..|ms| - 1], id);
      if ms[|ms| - 1].id == id then front else front + [ms[|ms| - 1]]
  }

  lemma {:induction false} WithoutMemberElements(ms: seq<Member>, id: nat)
    ensures forall m :: m in WithoutMember(ms, id) <==> m in ms && m.id != id
    ensures DistinctMembers(ms) ==> DistinctMembers(WithoutMember(ms, id))
  {
    if ms != [] {
      WithoutMemberElements(ms[..|ms| - 1], id);
      assert ms == ms[..|ms| - 1] + [ms[|ms| - 1]];
    }
  }

  predicate AllById(vips: seq<VipOption>) {
    vips != [] && forall v :: v in vips ==> v.ById?
  }

  function Register(table: map<nat, string>, vs: seq<Vip>): map<nat, string> {
    if vs == [] then table else Register(table, vs[..|vs| - 1])[vs[|vs| - 1].id := vs[|vs| - 1].address]
  }

  lemma {:induction false} RegisterKeeps(table: map<nat, string>, vs: seq<Vip>)
    requires forall v :: v in vs ==> v.id !in table
    ensures forall k :: k in table ==> k in Register(table, vs) && Register(table, vs)[k] == table[k]
  {
    if vs != [] {
      RegisterKeeps(table, vs[..|vs| - 1]);
    }
  }

  function Inserted(w: World, id: nat, r: Record, p: nat, table: map<nat, string>): World
    requires p <= |w.order|
  {
    World(w.lbs[id := r], w.order[..p] + [id] + w.order[p..], table)
  }

  lemma InsertedValid(w: World, id: nat, r: Record, p: nat, table: map<nat, string>)
    requires ValidWorld(w) && p <= |w.order| && id !in w.lbs && ValidRecord(id, r, table)
    requires forall v :: v in w.vips ==> v in table && table[v] == w.vips[v]
    ensures ValidWorld(Inserted(w, id, r, p, table))
  {
  }

  /** No key repeats, and none is taken. */
  predicate NewKeys(ms: seq<Member>, keys: seq<Key>) {
    NoDup(keys) && forall m :: m in ms ==> m.key !in keys
  }

  predicate MembersWith(ms: seq<Member>, keys: seq<Key>) {
    |ms| == |keys| && forall i :: 0 <= i < |keys| ==> ms[i].key == keys[i]
  }

  /** There is always an unused number. */
  lemma {:induction false} Above(s: set<nat>) returns (n: nat)
    ensures forall x :: x in s ==> x < n
  {
    n := 0;
    if s != {} {
      var x :| x in s;
      var m := Above(s - {x});
      n := if m <= x then x + 1 else m;
      assert forall y :: y in s ==> y == x || y in s - {x};
    }
  }

  lemma MembersFor(ms: seq<Member>, keys: seq<Key>)
    requires DistinctMembers(ms) && NewKeys(ms, keys)
    ensures exists added: seq<Member> :: MembersWith(added, keys) && DistinctMembers(ms + added)
  {
    var ids := set m | m in ms :: m.id;
    var n := Above(ids);
    var added := seq(|keys|, i requires 0 <= i < |keys| => Member(n + i, keys[i]));
    var all := ms + added;
    forall i, j | 0 <= i < j < |all| ensures all[i].id != all[j].id && all[i].key != all[j].key {
      if i < |ms| <= j {
        assert ms[i] in ms && ms[i].id in ids && all[j] == added[j - |ms|];
      }
    }
    assert MembersWith(added, keys);
  }

  /** Virtual IPs named by ID are there. */
  predicate KnownVips(w: World, options: seq<VipOption>) {
    AllById(options) ==> forall v :: v in options ==> v.id in w.vips
  }

  /** Newly allocated virtual IPs. */
  predicate FreshVips(table: map<nat, string>, vips: seq<Vip>) {
    && vips != [] && (forall v :: v in vips ==> v.id !in table)
    && forall v :: v in vips ==> v.id in Register(table, vips) && Register(table, vips)[v.id] == v.address
  }

  lemma VipsFor(table: map<nat, string>)
    ensures exists vips :: FreshVips(table, vips)
  {
    var n := Above(table.Keys);
    var vips := [Vip(n, "")];
    assert vips[..0] == [];
    assert FreshVips(table, vips);
  }

  lemma UnusedId(w: World)
    ensures exists id: nat :: id !in w.lbs
  {
    var n := Above(w.lbs.Keys);
    assert n !in w.lbs;
  }

  /** The effects of the writes, as relations between worlds. */
  ghost predicate MemberRemoved(w: World, w': World, id: nat, node: nat) {
    LiveAt(w, id) &&
    w' == SetRecord(w, id, w.lbs[id].(members := WithoutMember(w.lbs[id].members, node)))
  }

  ghost predicate MembersAdded(w: World, w': World, id: nat, keys: seq<Key>) {
    LiveAt(w, id) && id in w'.lbs &&
    var ms, ms' := w.lbs[id].members, w'.lbs[id].members;
    && w' == SetRecord(w, id, w.lbs[id].(members := ms'))
    && |ms'| == |ms| + |keys| && ms'[..|ms|] == ms
    && forall i :: 0 <= i < |keys| ==> ms'[|ms| + i].key == keys[i]
  }

  ghost predicate Killed(w: World, w': World, id: nat) {
    id in w.lbs && id in w'.lbs && !IsLive(w'.lbs[id].lb.status) &&
    w' == SetRecord(w, id, w.lbs[id].(lb := w.lbs[id].lb.(status := w'.lbs[id].lb.status)))
  }

  ghost predicate Reprotocolled(w: World, w': World, id: nat, protocol: string) {
    LiveAt(w, id) && w' == SetRecord(w, id, w.lbs[id].(lb := w.lbs[id].lb.(protocol := protocol)))
  }

  ghost predicate AccessSet(w: World, w': World, id: nat, items: seq<NetworkItem>) {
    LiveAt(w, id) && w' == SetRecord(w, id, w.lbs[id].(access := items))
  }

  datatype CreateOptions = CreateOptions(
    name: string, protocol: string, port: int, vips: seq<VipOption>, access: seq<NetworkItem>)

  ghost predicate BalancerAdded(w: World, w': World, id: nat, o: CreateOptions) {
    && id !in w.lbs && id in w'.lbs
    && w'.lbs == w.lbs[id := w'.lbs[id]]
    && (forall v :: v in w.vips ==> v in w'.vips && w'.vips[v] == w.vips[v])
    && var r := w'.lbs[id];
    && r.lb.id == id && r.lb.name == o.name && r.lb.protocol == o.protocol && r.lb.port == o.port
    && IsLive(r.lb.status) && r.members == [] && r.access == o.access
    && (AllById(o.vips) ==>
          |r.lb.vips| == |o.vips| && forall i :: 0 <= i < |o.vips| ==> r.lb.vips[i].id == o.vips[i].id)
  }

  lemma InsertedAdded(w: World, id: nat, lb: LoadBalancer, o: CreateOptions, p: nat, table: map<nat, string>)
    requires p <= |w.order| && id !in w.lbs && IsLive(lb.status) && lb.id == id
    requires lb.name == o.name && lb.protocol == o.protocol && lb.port == o.port
    requires forall v :: v in w.vips ==> v in table && table[v] == w.vips[v]
    requires AllById(o.vips) ==>
               |lb.vips| == |o.vips| && forall i :: 0 <= i < |o.vips| ==> lb.vips[i].id == o.vips[i].id
    ensures BalancerAdded(w, Inserted(w, id, Record(lb, [], o.access), p, table), id, o)
  {
  }

  class Cloud {
    var w: World
    var requests: nat
    ghost var trace: Trace
    /** How many requests failed although they were in order, polls aside. */
    ghost var faults: nat
    const plan: nat -> PageChoice

    ghost predicate Valid()
      reads `w
    {
      ValidWorld(w) && forall n :: Healthy(plan(n))
    }

    constructor (w0: World, plan0: nat -> PageChoice)
      requires ValidWorld(w0) && forall n :: Healthy(plan0(n))
      ensures Valid() && w == w0 && trace == Start
    {
      w, plan, requests, trace, faults := w0, plan0, 0, Start, 0;
    }

    /** One page of the listing of all load balancers. */
    method ListPage(marker: string) returns (r: Reply<seq<LoadBalancer>>)
      requires ValidWorld(w)
      modifies `requests, `faults
      ensures requests == old(requests) + 1 && faults == old(faults) + if r.Ok? then 0 else 1
      ensures r.Ok? ==> r.value == PageAfter(Collection(w), marker, plan(old(requests)))
    {
      var page := PageAfter(Collection(w), marker, plan(requests));
      requests := requests + 1;
      if * {
        faults := faults + 1;
        return Err(Failure);
      }
      return Ok(page);
    }

    /** A poll of one load balancer, at which its provisioning may have moved on. */
    method Get(id: nat) returns (r: Reply<LoadBalancer>)
      requires Valid()
      modifies `w, `trace
      ensures Valid() && Settled(old(w), w, id)
      ensures trace == Then(old(trace), if r.Ok? then Observed(id, r.value.status) else Refused(id, r.error))
      ensures r.Ok? ==> id in w.lbs && r.value == w.lbs[id].lb
      ensures r == Err(NotFound) ==> !LiveAt(w, id)
    {
      if id in w.lbs {
        var was := w.lbs[id].lb.status;
        var status :| IsLive(status) == IsLive(was);
        w := SetRecord(w, id, w.lbs[id].(lb := w.lbs[id].lb.(status := status)));
      }
      if * {
        r := Err(Failure);
      } else if * {
        r := Err(Unprocessable);
      } else if !LiveAt(w, id) {
        var kept: bool :| true;
        r := if id in w.lbs && kept then Ok(w.lbs[id].lb) else Err(NotFound);
      } else {
        r := Ok(w.lbs[id].lb);
      }
      trace := Then(trace, if r.Ok? then Observed(id, r.value.status) else Refused(id, r.error));
    }

    method ListNodes(id: nat) returns (r: Reply<seq<Member>>)
      requires Valid()
      modifies `faults
      ensures faults == old(faults) + if r.Ok? || r.error == NotFound then 0 else 1
      ensures r.Ok? ==> id in w.lbs && r.value == w.lbs[id].members
      ensures r == Err(NotFound) ==> !LiveAt(w, id)
    {
      var kept: bool :| true;
      if * {
        faults := faults + 1;
        r := Err(Failure);
      } else if id in w.lbs && (kept || LiveAt(w, id)) {
        r := Ok(w.lbs[id].members);
      } else {
        r := Err(NotFound);
      }
    }

    method DeleteNode(id: nat, node: nat) returns (e: Option<ApiError>)
      requires Valid()
      modifies `w, `trace, `faults
      ensures faults == old(faults) + if e.None? || e.value == NotFound then 0 else 1
      ensures Valid() && trace == Then(old(trace), WroteNodes(id))
      ensures e.None? ==> MemberRemoved(old(w), w, id, node)
      ensures e == Some(NotFound) ==>
                w == old(w) && (LiveAt(w, id) ==> forall m :: m in w.lbs[id].members ==> m.id != node)
      ensures w == old(w) || MemberRemoved(old(w), w, id, node)
    {
      trace := Then(trace, WroteNodes(id));
      if !LiveAt(w, id) || !exists m :: m in w.lbs[id].members && m.id == node {
        return Some(NotFound);
      }
      if * {
        faults := faults + 1;
        return Some(Failure);
      }
      WithoutMemberElements(w.lbs[id].members, node);
      w := SetRecord(w, id, w.lbs[id].(members := WithoutMember(w.lbs[id].members, node)));
      if * {
        faults := faults + 1;
        return Some(Unprocessable);
      }
      return None;
    }

    /** Adds all the members or none. Members with an address and port already present are rejected. */
    method CreateNodes(id: nat, keys: seq<Key>) returns (e: Option<ApiError>)
      requires Valid()
      modifies `w, `trace, `faults
      ensures faults == old(faults) ||
              (e.Some? && faults == old(faults) + 1)
      ensures e.Some? && LiveAt(old(w), id) && NewKeys(old(w).lbs[id].members, keys) ==> faults == old(faults) + 1
      ensures Valid() && trace == Then(old(trace), WroteNodes(id))
      ensures e.None? ==> MembersAdded(old(w), w, id, keys)
      ensures w == old(w) || MembersAdded(old(w), w, id, keys)
    {
      trace := Then(trace, WroteNodes(id));
      if !LiveAt(w, id) { return Some(NotFound); }
      var ms := w.lbs[id].members;
      if !NewKeys(ms, keys) { return Some(Failure); }
      if * {
        faults := faults + 1;
        return Some(Failure);
      }
      MembersFor(ms, keys);
      var added: seq<Member> :| MembersWith(added, keys) && DistinctMembers(ms + added);
      var ms' := ms + added;
      w := SetRecord(w, id, w.lbs[id].(members := ms'));
      if * {
        faults := faults + 1;
        return Some(Unprocessable);
      }
      return None;
    }

    /** Creates a load balancer, reusing the virtual IPs named by ID and allocating new ones otherwise. */
    method CreateBalancer(o: CreateOptions) returns (r: Reply<LoadBalancer>, ghost id: nat)
      requires Valid()
      modifies `w, `trace, `faults
      ensures faults == old(faults) || (r.Err? && faults == old(faults) + 1)
      ensures r.Err? && KnownVips(old(w), o.vips) ==> faults == old(faults) + 1
      ensures Valid() && trace == Then(old(trace), WroteBalancer(id))
      ensures r.Ok? ==> id in w.lbs && BalancerAdded(old(w), w, id, o) && r.value == w.lbs[id].lb
      ensures w == old(w) || BalancerAdded(old(w), w, id, o)
    {
      hide ValidWorld, FreshVips, KnownVips, AllById, BalancerAdded;
      UnusedId(w);
      var newId: nat :| newId !in w.lbs;
      id := newId;
      trace := Then(trace, WroteBalancer(id));
      if !KnownVips(w, o.vips) {
        return Err(Failure), id;
      }
      if * {
        faults := faults + 1;
        return Err(Failure), id;
      }
      var vips, table := AssignVips(o.vips);
      var status :| IsLive(status);
      var lb := LoadBalancer(newId, o.name, o.protocol, o.port, status, vips);
      var p: nat :| p <= |w.order|;
      InsertedValid(w, newId, Record(lb, [], o.access), p, table);
      InsertedAdded(w, newId, lb, o, p, table);
      w := Inserted(w, newId, Record(lb, [], o.access), p, table);
      if * {
        faults := faults + 1;
        return Err(Failure), id;
      }
      return Ok(lb), id;
    }

    /** The virtual IPs of a new load balancer and the table of all virtual IPs afterwards. */
    method AssignVips(options: seq<VipOption>) returns (vips: seq<Vip>, table: map<nat, string>)
      requires KnownVips(w, options)
      ensures vips != [] && forall v :: v in vips ==> v.id in table && table[v.id] == v.address
      ensures forall v :: v in w.vips ==> v in table && table[v] == w.vips[v]
      ensures AllById(options) ==>
                |vips| == |options| && forall i :: 0 <= i < |options| ==> vips[i].id == options[i].id
    {
      table := w.vips;
      if AllById(options) {
        vips := seq(|options|, i requires 0 <= i < |options| => Vip(options[i].id, table[options[i].id]));
      } else {
        VipsFor(table);
        vips :| FreshVips(table, vips);
        RegisterKeeps(table, vips);
        table := Register(table, vips);
      }
    }

    method DeleteBalancer(id: nat) returns (e: Option<ApiError>)
      requires Valid()
      modifies `w, `trace, `faults
      ensures faults == old(faults) + if e.None? || e.value == NotFound then 0 else 1
      ensures Valid() && trace == Then(old(trace), Removed(id))
      ensures e.None? ==> Killed(old(w), w, id)
      ensures e == Some(NotFound) ==> w == old(w) && !LiveAt(w, id)
      ensures w == old(w) || Killed(old(w), w, id)
    {
      trace := Then(trace, Removed(id));
      if !LiveAt(w, id) { return Some(NotFound); }
      if * {
        faults := faults + 1;
        return Some(Failure);
      }
      var status :| !IsLive(status);
      w := SetRecord(w, id, w.lbs[id].(lb := w.lbs[id].lb.(status := status)));
      if * {
        faults := faults + 1;
        return Some(Unprocessable);
      }
      return None;
    }

    method UpdateProtocol(id: nat, protocol: string) returns (e: Option<ApiError>)
      requires Valid()
      modifies `w, `trace, `faults
      ensures faults == old(faults) + if e.None? || e.value == NotFound then 0 else 1
      ensures e == Some(NotFound) ==> !LiveAt(old(w), id)
      ensures Valid() && trace == Then(old(trace), WroteBalancer(id))
      ensures e.None? ==> Reprotocolled(old(w), w, id, protocol)
      ensures w == old(w) || Reprotocolled(old(w), w, id, protocol)
    {
      trace := Then(trace, WroteBalancer(id));
      if !LiveAt(w, id) { return Some(NotFound); }
      if * {
        faults := faults + 1;
        return Some(Failure);
      }
      w := SetRecord(w, id, w.lbs[id].(lb := w.lbs[id].lb.(protocol := protocol)));
      if * {
        faults := faults + 1;
        return Some(Unprocessable);
      }
      return None;
    }

    method GetAccess(id: nat) returns (r: Reply<seq<NetworkItem>>)
      requires Valid()
      modifies `faults
      ensures faults == old(faults) + if r.Ok? || r.error == NotFound then 0 else 1
      ensures r.Ok? ==> id in w.lbs && r.value == w.lbs[id].access
      ensures r == Err(NotFound) ==> !LiveAt(w, id)
    {
      var kept: bool :| true;
      if * {
        faults := faults + 1;
        r := Err(Failure);
      } else if id in w.lbs && (kept || LiveAt(w, id)) {
        r := Ok(w.lbs[id].access);
      } else {
        r := Err(NotFound);
      }
    }

    method DeleteAccess(id: nat) returns (e: Option<ApiError>)
      requires Valid()
      modifies `w, `trace, `faults
      ensures faults == old(faults) + if e.None? || e.value == NotFound then 0 else 1
      ensures Valid() && trace == Then(old(trace), WroteBalancer(id))
      ensures e.None? ==> AccessSet(old(w), w, id, [])
      ensures e == Some(NotFound) ==> w == old(w) && (LiveAt(w, id) ==> w.lbs[id].access == [])
      ensures w == old(w) || AccessSet(old(w), w, id, [])
    {
      trace := Then(trace, WroteBalancer(id));
      if !LiveAt(w, id) || w.lbs[id].access == [] { return Some(NotFound); }
      if * {
        faults := faults + 1;
        return Some(Failure);
      }
      w := SetRecord(w, id, w.lbs[id].(access := []));
      if * {
        faults := faults + 1;
        return Some(Unprocessable);
      }
      return None;
    }

    /** Adds items to the access list. */
    method CreateAccess(id: nat, items: seq<NetworkItem>) returns (e: Option<ApiError>)
      requires Valid()
      modifies `w, `trace, `faults
      ensures faults == old(faults) + if e.None? || e.value == NotFound then 0 else 1
      ensures Valid() && trace == Then(old(trace), WroteBalancer(id))
      ensures e.None? ==> id in old(w).lbs && AccessSet(old(w), w, id, old(w).lbs[id].access + items)
      ensures e == Some(NotFound) ==> w == old(w) && !LiveAt(w, id)
      ensures w == old(w) || (id in old(w).lbs && AccessSet(old(w), w, id, old(w).lbs[id].access + items))
    {
      trace := Then(trace, WroteBalancer(id));
      if !LiveAt(w, id) { return Some(NotFound); }
      if * {
        faults := faults + 1;
        return Some(Failure);
      }
      w := SetRecord(w, id, w.lbs[id].(access := w.lbs[id].access + items));
      if * {
        faults := faults + 1;
        return Some(Unprocessable);
      }
      return None;
    }
  }
}
