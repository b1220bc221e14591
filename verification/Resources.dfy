/** The objects of the load balancer API and of the cluster, and the state of the cloud. */
module Resources {
  import opened Sequences

  const MAX_NODE_LIMIT: nat := 25
  const ACTIVE_STEPS: nat := 19
  const DELETE_STEPS: nat := 13
  const DEFAULT_SOURCE_RANGES := "0.0.0.0/0"

  datatype Status = Active | Broken | Build | PendingUpdate | PendingDelete | Deleted | Suspended

  /** The load balancers that a listing by name keeps. */
  predicate IsLive(s: Status) {
    s != Deleted && s != PendingDelete
  }

  datatype Vip = Vip(id: nat, address: string)

  datatype VipOption = ById(id: nat) | OfType(kind: string)

  datatype LoadBalancer = LoadBalancer(
    id: nat, name: string, protocol: string, port: int, status: Status, vips: seq<Vip>)

  datatype Key = Key(address: string, port: int)

  datatype Member = Member(id: nat, key: Key)

  datatype Access = Allow | Deny

  datatype NetworkItem = NetworkItem(address: string, access: Access)

  datatype AddressType = InternalIP | ExternalIP | HostName

  datatype NodeAddress = NodeAddress(kind: AddressType, address: string)

  datatype Node = Node(name: string, addresses: seq<NodeAddress>)

  datatype ServicePort = ServicePort(port: int, nodePort: int, protocol: string)

  datatype Service = Service(
    namespace: string, name: string, ports: seq<ServicePort>,
    sourceRanges: seq<string>, annotations: map<string, string>)

  datatype Record = Record(lb: LoadBalancer, members: seq<Member>, access: seq<NetworkItem>)

  /** All load balancers ever created, their listing order, and the address of every virtual IP. */
  datatype World = World(lbs: map<nat, Record>, order: seq<nat>, vips: map<nat, string>)

  predicate DistinctMembers(ms: seq<Member>) {
    forall i, j :: 0 <= i < j < |ms| ==> ms[i].id != ms[j].id && ms[i].key != ms[j].key
  }

  ghost predicate ValidRecord(id: nat, r: Record, vips: map<nat, string>) {
    && r.lb.id == id
    && |r.lb.vips| > 0
    && (forall v :: v in r.lb.vips ==> v.id in vips && vips[v.id] == v.address)
    && DistinctMembers(r.members)
  }

  ghost predicate ValidWorld(w: World) {
    && NoDup(w.order)
    && (forall id :: id in w.order <==> id in w.lbs)
    && (forall id :: id in w.lbs ==> ValidRecord(id, w.lbs[id], w.vips))
  }

  predicate LiveAt(w: World, id: nat) {
    id in w.lbs && IsLive(w.lbs[id].lb.status)
  }

  ghost function LiveNamed(w: World, name: string): set<nat> {
    set id | id in w.lbs && w.lbs[id].lb.name == name && IsLive(w.lbs[id].lb.status)
  }

  function SetRecord(w: World, id: nat, r: Record): World {
    w.(lbs := w.lbs[id := r])
  }

  /** Nothing but the record of `id` differs. */
  ghost predicate OnlyAt(w: World, w': World, id: nat) {
    w' == w || (id in w.lbs && id in w'.lbs && w' == SetRecord(w, id, w'.lbs[id]))
  }

  /** Nothing but the status of `id` differs, and the load balancer did not die or revive. */
  ghost predicate Settled(w: World, w': World, id: nat) {
    && OnlyAt(w, w', id)
    && (id in w.lbs ==>
          var r, r' := w.lbs[id], w'.lbs[id];
          IsLive(r.lb.status) == IsLive(r'.lb.status) && r' == r.(lb := r.lb.(status := r'.lb.status)))
  }

  /** Nothing but the status and the members of `id` differs. */
  ghost predicate NodesOnly(w: World, w': World, id: nat) {
    && OnlyAt(w, w', id)
    && (id in w.lbs ==>
          var r, r' := w.lbs[id], w'.lbs[id];
          IsLive(r.lb.status) == IsLive(r'.lb.status)
          && r' == r.(lb := r.lb.(status := r'.lb.status), members := r'.members))
  }

  lemma OnlyAtTransitive(w0: World, w1: World, w2: World, id: nat)
    requires OnlyAt(w0, w1, id) && OnlyAt(w1, w2, id)
    ensures OnlyAt(w0, w2, id)
  {
  }

  /** All live load balancers of the name carry the same virtual IPs. */
  ghost predicate VipsSharedOf(w: World, name: string) {
    forall i, j :: i in LiveNamed(w, name) && j in LiveNamed(w, name) ==> w.lbs[i].lb.vips == w.lbs[j].lb.vips
  }

  /** Whatever name shared its virtual IPs still does. */
  ghost predicate SharingKept(w: World, w': World) {
    forall name :: VipsSharedOf(w, name) ==> VipsSharedOf(w', name)
  }
}
